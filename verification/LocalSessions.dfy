/** A Business Unit application's own sessions, with an index from the federation sid to local session ids. */
module LocalSessions {
  import opened Wrappers
  import opened Redis

  type LocalId = string

  datatype LocalSession = LocalSession(itsId: string, sid: string, authTime: int, createdAt: int)

  datatype Local = Local(sessions: Store<LocalId, LocalSession>, index: Store<string, set<LocalId>>)

  const NOTHING := Local(map[], map[])

  predicate WellFormedId(id: LocalId) {
    |id| == 43 &&
    forall i :: 0 <= i < |id| ==>
      var c := id[i];
      'A' <= c <= 'Z' || 'a' <= c <= 'z' || '0' <= c <= '9' || c == '_' || c == '-'
  }

  function Create(l: Local, ttl: int, id: LocalId, s: LocalSession, now: int): Local {
    Local(SetEx(l.sessions, id, s, now, ttl), SAddExpire(l.index, s.sid, id, now, ttl))
  }

  function Lookup(l: Local, id: LocalId, now: int): Option<LocalSession> {
    if WellFormedId(id) then Get(l.sessions, id, now) else None
  }

  function Destroy(l: Local, id: LocalId, now: int): Local {
    var s := Lookup(l, id, now);
    if s.None? then l else Local(Del(l.sessions, id), SRem(l.index, s.value.sid, id, now))
  }

  function DestroyBySid(l: Local, sid: string, now: int): Local {
    var ids := SMembers(l.index, sid, now);
    if ids == {} then l else Local(l.sessions - ids, Del(l.index, sid))
  }

  /** A random id nobody has used. */
  ghost predicate Fresh(l: Local, id: LocalId) {
    id !in l.sessions && forall sid :: sid in l.index ==> id !in l.index[sid].value
  }

  /** A live session is a member of a live sid set that lives at least as long. */
  ghost predicate Reachable(l: Local, ttl: int, now: int, id: LocalId)
    requires id in l.sessions
  {
    var sid := l.sessions[id].value.sid;
    && l.sessions[id].deadline <= now + ttl * 1000
    && (Live(l.sessions, id, now) ==>
          sid in l.index && id in l.index[sid].value && l.sessions[id].deadline <= l.index[sid].deadline)
  }

  ghost predicate Complete(l: Local, ttl: int, now: int) {
    && (forall id :: id in l.sessions ==> Reachable(l, ttl, now, id))
    && (forall sid, id :: sid in l.index && id in l.index[sid].value && id in l.sessions ==>
         l.sessions[id].value.sid == sid)
  }

  lemma LaterKeepsComplete(l: Local, ttl: int, now: int, later: int)
    requires Complete(l, ttl, now) && now <= later
    ensures Complete(l, ttl, later)
  {
    forall id | id in l.sessions ensures Reachable(l, ttl, later, id) {
      assert Reachable(l, ttl, now, id);
    }
  }

  /** The new member pushes the sid set's deadline past every older session of the sid; if the set had already expired,
      so had they. */
  lemma CreateKeepsComplete(l: Local, ttl: int, id: LocalId, s: LocalSession, now: int)
    requires 0 < ttl && Complete(l, ttl, now) && Fresh(l, id)
    ensures Complete(Create(l, ttl, id, s, now), ttl, now)
  {
    var m := Create(l, ttl, id, s, now);
    forall x | x in m.sessions ensures Reachable(m, ttl, now, x) {
      assert x in l.sessions ==> Reachable(l, ttl, now, x);
    }
  }

  lemma DestroyKeepsComplete(l: Local, ttl: int, id: LocalId, now: int)
    requires Complete(l, ttl, now)
    ensures Complete(Destroy(l, id, now), ttl, now)
    ensures Lookup(Destroy(l, id, now), id, now).None?
    ensures forall x :: x != id ==> Lookup(Destroy(l, id, now), x, now) == Lookup(l, x, now)
  {
    var m := Destroy(l, id, now);
    forall x | x in m.sessions ensures Reachable(m, ttl, now, x) {
      assert Reachable(l, ttl, now, x);
    }
  }

  /** destroyBySid leaves no readable session of the sid and touches no session of another sid. */
  lemma DestroyBySidEndsThemAll(l: Local, ttl: int, sid: string, now: int)
    requires Complete(l, ttl, now)
    ensures var m := DestroyBySid(l, sid, now);
            && Complete(m, ttl, now)
            && (forall id :: Lookup(m, id, now).Some? ==> Lookup(m, id, now).value.sid != sid)
            && (forall id :: Lookup(l, id, now).Some? && Lookup(l, id, now).value.sid != sid ==>
                 Lookup(m, id, now) == Lookup(l, id, now))
            && (forall id :: id in m.sessions ==> id in l.sessions && m.sessions[id] == l.sessions[id])
  {
    var m := DestroyBySid(l, sid, now);
    forall x | x in m.sessions ensures Reachable(m, ttl, now, x) {
      assert Reachable(l, ttl, now, x);
    }
  }

  /** A session is read exactly if the id has the right form and its key is live. */
  lemma LookupAnswers(l: Local, id: LocalId, now: int, s: LocalSession)
    ensures Lookup(l, id, now) == Some(s) <==>
              WellFormedId(id) && id in l.sessions && now < l.sessions[id].deadline && l.sessions[id].value == s
  {
  }

  /** A created session is read as it was for the whole lifetime and not longer, and nothing else changes for
      readers. */
  lemma CreateWrites(l: Local, ttl: int, id: LocalId, s: LocalSession, now: int, later: int)
    requires WellFormedId(id)
    ensures var m := Create(l, ttl, id, s, now);
            && Lookup(m, id, later) == (if later < now + ttl * 1000 then Some(s) else None)
            && (forall x :: x != id ==> Lookup(m, x, later) == Lookup(l, x, later))
            && SMembers(m.index, s.sid, now) == (if 0 < ttl then SMembers(l.index, s.sid, now) + {id} else {})
  {
  }

  /** destroy of a session that can be read also takes it off its sid's list. */
  lemma DestroyWrites(l: Local, id: LocalId, now: int)
    ensures var m := Destroy(l, id, now);
            Lookup(l, id, now).Some? ==>
              && id !in m.sessions && id !in SMembers(m.index, Lookup(l, id, now).value.sid, now)
              && forall sid :: sid != Lookup(l, id, now).value.sid ==>
                   SMembers(m.index, sid, now) == SMembers(l.index, sid, now)
    ensures Lookup(l, id, now).None? ==> Destroy(l, id, now) == l
  {
  }

  // ---- whole runs ----

  datatype Op =
    | Tick(ms: nat)
    | CreateOp(id: LocalId, s: LocalSession)
    | DestroyOp(id: LocalId)
    | DestroyBySidOp(sid: string)

  datatype Sys = Sys(now: int, local: Local)

  ghost function Step(ttl: int, s: Sys, op: Op): Sys {
    match op
    case Tick(ms) => s.(now := s.now + ms)
    case CreateOp(id, x) => if Fresh(s.local, id) then s.(local := Create(s.local, ttl, id, x, s.now)) else s
    case DestroyOp(id) => s.(local := Destroy(s.local, id, s.now))
    case DestroyBySidOp(sid) => s.(local := DestroyBySid(s.local, sid, s.now))
  }

  ghost function Run(ttl: int, start: int, ops: seq<Op>): Sys {
    if ops == [] then Sys(start, NOTHING) else Step(ttl, Run(ttl, start, ops[..|ops| - 1]), ops[|ops| - 1])
  }

  lemma {:induction false} RunIsComplete(ttl: int, start: int, ops: seq<Op>)
    requires 0 < ttl
    ensures Complete(Run(ttl, start, ops).local, ttl, Run(ttl, start, ops).now)
  {
    if ops != [] {
      RunIsComplete(ttl, start, ops[..|ops| - 1]);
      var s := Run(ttl, start, ops[..|ops| - 1]);
      match ops[|ops| - 1]
      case Tick(ms) => LaterKeepsComplete(s.local, ttl, s.now, s.now + ms);
      case CreateOp(id, x) => if Fresh(s.local, id) { CreateKeepsComplete(s.local, ttl, id, x, s.now); }
      case DestroyOp(id) => DestroyKeepsComplete(s.local, ttl, id, s.now);
      case DestroyBySidOp(sid) => DestroyBySidEndsThemAll(s.local, ttl, sid, s.now);
    }
  }

  /** Index completeness over sequential runs: after destroyBySid(sid) no session with that sid can be read, and every
      other session reads as before. */
  lemma DestroyBySidIsComplete(ttl: int, start: int, ops: seq<Op>, sid: string, id: LocalId)
    requires 0 < ttl
    ensures var s := Run(ttl, start, ops); var t := Run(ttl, start, ops + [DestroyBySidOp(sid)]);
            var before := Lookup(s.local, id, s.now);
            Lookup(t.local, id, t.now) == if before.Some? && before.value.sid == sid then None else before
  {
    RunIsComplete(ttl, start, ops);
    assert (ops + [DestroyBySidOp(sid)])[..|ops|] == ops;
    var s := Run(ttl, start, ops);
    DestroyBySidEndsThemAll(s.local, ttl, sid, s.now);
  }

  class LocalSessionStore {
    const ttl: int
    var sessions: Store<LocalId, LocalSession>
    var index: Store<string, set<LocalId>>

    ghost function View(): Local
      reads this
    {
      Local(sessions, index)
    }

    ghost predicate Valid(now: int)
      reads this
    {
      0 < ttl && Complete(View(), ttl, now)
    }

    constructor (ttl: int)
      requires 0 < ttl
      ensures View() == NOTHING && this.ttl == ttl && forall now :: Valid(now)
    {
      this.ttl, sessions, index := ttl, map[], map[];
    }

    method CreateSession(id: LocalId, itsId: string, sid: string, authTime: int, now: int)
      requires Valid(now) && Fresh(View(), id)
      modifies this
      ensures Valid(now) && View() == Create(old(View()), ttl, id, LocalSession(itsId, sid, authTime, now), now)
    {
      CreateKeepsComplete(View(), ttl, id, LocalSession(itsId, sid, authTime, now), now);
      sessions := SetEx(sessions, id, LocalSession(itsId, sid, authTime, now), now, ttl);
      index := SAddExpire(index, sid, id, now, ttl);
    }

    method GetSession(id: LocalId, now: int) returns (r: Option<LocalSession>)
      ensures r == Lookup(View(), id, now)
    {
      if !WellFormedId(id) { return None; }
      r := Get(sessions, id, now);
    }

    method DestroySession(id: LocalId, now: int) returns (r: Option<LocalSession>)
      requires Valid(now)
      modifies this
      ensures Valid(now) && View() == Destroy(old(View()), id, now) && r == Lookup(old(View()), id, now)
    {
      DestroyKeepsComplete(View(), ttl, id, now);
      r := GetSession(id, now);
      if r.None? { return; }
      sessions := Del(sessions, id);
      index := SRem(index, r.value.sid, id, now);
    }

    /** Back-channel logout: afterwards no session of the sid can be read. */
    method DestroyAllOfSid(sid: string, now: int) returns (destroyed: nat)
      requires Valid(now)
      modifies this
      ensures Valid(now) && View() == DestroyBySid(old(View()), sid, now)
      ensures destroyed == |SMembers(old(View()).index, sid, now)|
      ensures forall id :: Lookup(View(), id, now).Some? ==> Lookup(View(), id, now).value.sid != sid
    {
      DestroyBySidEndsThemAll(View(), ttl, sid, now);
      var ids := SMembers(index, sid, now);
      if ids == {} { return 0; }
      sessions := sessions - ids;
      index := Del(index, sid);
      destroyed := |ids|;
    }
  }
}
