/** create, touch, revoke and getByHandle running concurrently, interleaved command by command. Each thread is one call
    and remembers what it has read; the clock may move between any two commands. */
module SessionInterleaving {
  import opened Wrappers
  import opened Redis
  import opened FederationSessions

  type Tid = nat

  datatype Thread =
    | CreateReady(itsId: ItsId, at: int)                       // clock read, MULTI to come
    | CreateInsertNext(s: Session)
    | LookupHandle(handle: string, begun: nat)                 // GET of the handle key to come
    | LookupSession(handle: string, sid: Sid, begun: nat)      // GET of the session key to come
    | TouchNext(s: Session, ttl: int)                          // clock read, MULTI to come
    | TouchUpdateNext(s: Session)
    | RevokeGet(sid: Sid)
    | RevokeSelect(sid: Sid, raw: Option<Session>)
    | RevokeClients(sid: Sid, itsId: ItsId, raw: Option<Session>)
    | RevokeExec(sid: Sid, itsId: ItsId, raw: Option<Session>)
    | RevokeUpdateNext(sid: Sid)

  /** A getByHandle that began at step begun returned a session with this sid. */
  datatype Answer = Answer(sid: Sid, begun: nat)

  /** held: the session objects some request has in memory. hashOf, seen, returned, answers: history of created sids,
      sids anyone mentioned, the step at which a revoke of a sid first returned, and the results of getByHandle. */
  datatype System = System(now: int, fed: Fed, threads: map<Tid, Thread>, held: set<Session>, steps: nat,
                           hashOf: map<Sid, Hash>, seen: set<Sid>, returned: map<Sid, nat>, answers: set<Answer>)

  datatype Event =
    | Advance(ms: nat)
    | BeginCreate(tid: Tid, itsId: ItsId)
    | ExecCreate(tid: Tid, sid: Sid, handle: string)
    | BeginLookup(tid: Tid, handle: string)
    | BeginTouch(tid: Tid, s: Session)
    | BeginRevoke(tid: Tid, sid: Sid)
    | Go(tid: Tid)                                             // the thread's next command

  function Start(now: int): System {
    System(now, EMPTY, map[], {}, 0, map[], {}, map[], {})
  }

  function Finish(y: System, tid: Tid): System {
    y.(threads := y.threads - {tid})
  }

  function Return(y: System, tid: Tid, sid: Sid): System {
    Finish(y, tid).(returned := if sid in y.returned then y.returned else y.returned[sid := y.steps])
  }

  /** The next command of one thread. */
  function Advanced(y: System, tid: Tid): System
    requires tid in y.threads
  {
    match y.threads[tid]
    case CreateReady(_, _) => y
    case CreateInsertNext(s) =>
      Finish(y, tid).(fed := CreateInsert(y.fed, s), held := y.held + {s})
    case LookupHandle(handle, begun) =>
      var sid := if WellFormedHandle(handle) then Get(y.fed.handles, Sha256(handle), y.now) else None;
      if sid.None? then Finish(y, tid) else y.(threads := y.threads[tid := LookupSession(handle, sid.value, begun)])
    case LookupSession(handle, sid, begun) =>
      var s := Lookup(y.fed, sid, y.now);
      if s.None? || s.value.handleHash != Sha256(handle) then Finish(y, tid)
      else Finish(y, tid).(held := y.held + {s.value}, answers := y.answers + {Answer(s.value.sid, begun)})
    case TouchNext(s, ttl) =>
      y.(fed := TouchMulti(y.fed, s, ttl, y.now), threads := y.threads[tid := TouchUpdateNext(s)])
    case TouchUpdateNext(s) =>
      Finish(y, tid).(fed := TouchUpdate(y.fed, s), held := y.held + {s})
    case RevokeGet(sid) =>
      y.(threads := y.threads[tid := RevokeSelect(sid, Get(y.fed.sessions, sid, y.now))])
    case RevokeSelect(sid, raw) =>
      if AlreadyGone(y.fed, sid, raw) then Return(y, tid, sid) else
      var itsId := if raw.Some? then raw.value.itsId else y.fed.rows[sid].itsId;
      y.(threads := y.threads[tid := RevokeClients(sid, itsId, raw)])
    case RevokeClients(sid, itsId, raw) =>
      y.(threads := y.threads[tid := RevokeExec(sid, itsId, raw)])
    case RevokeExec(sid, itsId, raw) =>
      y.(fed := RevokeMulti(y.fed, sid, itsId, raw, y.now), threads := y.threads[tid := RevokeUpdateNext(sid)])
    case RevokeUpdateNext(sid) =>
      Return(y.(fed := RevokeUpdate(y.fed, sid, y.now)), tid, sid)
  }

  /** One event. An event that is not enabled changes nothing but the step count. */
  function Step(cfg: Config, x: System, e: Event): System {
    var y := x.(steps := x.steps + 1);
    match e
    case Advance(ms) => y.(now := y.now + ms)
    case BeginCreate(tid, itsId) =>
      if tid in y.threads then y else y.(threads := y.threads[tid := CreateReady(itsId, y.now)])
    case ExecCreate(tid, sid, handle) =>
      // sid and handle are random: never mentioned, never used before
      if tid !in y.threads || !y.threads[tid].CreateReady? then y else
      if sid in y.seen || Sha256(handle) in y.hashOf.Values then y else
      var s := NewSession(cfg, y.threads[tid].itsId, sid, handle, y.threads[tid].at);
      y.(fed := CreateMulti(y.fed, cfg, s, y.now), threads := y.threads[tid := CreateInsertNext(s)],
         hashOf := y.hashOf[sid := s.handleHash], seen := y.seen + {sid})
    case BeginLookup(tid, handle) =>
      if tid in y.threads then y else y.(threads := y.threads[tid := LookupHandle(handle, y.steps)])
    case BeginTouch(tid, s) =>
      if tid in y.threads || s !in y.held then y else
      y.(threads := y.threads[tid := TouchNext(s.(expiresAt := TouchExpiry(cfg, s, y.now)), TouchTtl(cfg, s, y.now))])
    case BeginRevoke(tid, sid) =>
      if tid in y.threads then y else y.(threads := y.threads[tid := RevokeGet(sid)], seen := y.seen + {sid})
    case Go(tid) =>
      if tid in y.threads then Advanced(y, tid) else y
  }

  function Run(cfg: Config, now: int, events: seq<Event>): System {
    if events == [] then Start(now) else Step(cfg, Run(cfg, now, events[..|events| - 1]), events[|events| - 1])
  }

  // ---- the invariant ----

  /** A session object of a created sid carries that sid's handle hash. */
  predicate Genuine(y: System, s: Session) {
    s.sid in y.hashOf && y.hashOf[s.sid] == s.handleHash
  }

  /** No live handle key leads to sid, and none ever will: sid has been mentioned, so it cannot be created again. */
  predicate Dead(y: System, sid: Sid) {
    sid in y.seen && (sid in y.hashOf ==> !Live(y.fed.handles, y.hashOf[sid], y.now))
  }

  predicate ThreadOk(y: System, t: Thread) {
    match t
    case CreateReady(_, _) => true
    case CreateInsertNext(s) => Genuine(y, s)
    case LookupHandle(_, begun) => begun <= y.steps
    case LookupSession(_, sid, begun) => begun <= y.steps && (sid in y.returned ==> begun <= y.returned[sid])
    case TouchNext(s, _) => Genuine(y, s)
    case TouchUpdateNext(s) => Genuine(y, s)
    case RevokeGet(sid) => sid in y.seen
    case RevokeSelect(sid, raw) => ReadBy(y, sid, raw)
    case RevokeClients(sid, _, raw) => ReadBy(y, sid, raw)
    case RevokeExec(sid, _, raw) => ReadBy(y, sid, raw)
    case RevokeUpdateNext(sid) => Dead(y, sid)
  }

  /** What a revoke may have read of sid: its session value, or nothing and then the handle is already dead. */
  predicate ReadBy(y: System, sid: Sid, raw: Option<Session>) {
    sid in y.seen && if raw.Some? then raw.value.sid == sid && Genuine(y, raw.value) else Dead(y, sid)
  }

  /** A handle key belongs to the sid it names, and while it lives the session key lives at least as long. */
  predicate HandleOk(y: System, h: Hash)
    requires h in y.fed.handles
  {
    var sid := y.fed.handles[h].value;
    && sid in y.hashOf && y.hashOf[sid] == h
    && (Live(y.fed.handles, h, y.now) ==>
          sid in y.fed.sessions && y.fed.handles[h].deadline <= y.fed.sessions[sid].deadline)
  }

  ghost predicate StoreOk(y: System) {
    && (forall h :: h in y.fed.handles ==> HandleOk(y, h))
    && (forall sid :: sid in y.fed.sessions ==>
         y.fed.sessions[sid].value.sid == sid && Genuine(y, y.fed.sessions[sid].value))
  }

  ghost predicate HeldOk(y: System) {
    forall s :: s in y.held ==> Genuine(y, s)
  }

  ghost predicate AnswersOk(y: System) {
    forall r :: r in y.answers ==> r.begun <= y.steps && (r.sid in y.returned ==> r.begun <= y.returned[r.sid])
  }

  ghost predicate HistoryOk(y: System) {
    && HeldOk(y) && AnswersOk(y)
    && (forall sid :: sid in y.hashOf ==> sid in y.seen)
    && (forall a, b :: a in y.hashOf && b in y.hashOf && y.hashOf[a] == y.hashOf[b] ==> a == b)
    && (forall sid :: sid in y.returned ==> Dead(y, sid) && y.returned[sid] <= y.steps)
  }

  ghost predicate ThreadsOk(y: System) {
    forall tid :: tid in y.threads ==> ThreadOk(y, y.threads[tid])
  }

  ghost predicate Inv(y: System) {
    StoreOk(y) && HistoryOk(y) && ThreadsOk(y)
  }

  /** Time moves on: history only grows, dead handles stay dead. */
  ghost predicate Later(x: System, y: System) {
    && x.steps < y.steps && x.now <= y.now && x.seen <= y.seen
    && (forall sid :: sid in x.hashOf ==> sid in y.hashOf && y.hashOf[sid] == x.hashOf[sid])
    && (forall sid :: Dead(x, sid) ==> Dead(y, sid))
    && (forall sid :: sid in x.returned ==> sid in y.returned && y.returned[sid] == x.returned[sid])
    && (forall sid :: sid in y.returned && sid !in x.returned ==> y.returned[sid] == y.steps)
  }

  /** Only thread tid may have changed, and what it is now is consistent. */
  ghost predicate OnlyThread(x: System, y: System, tid: Tid) {
    forall t :: t in y.threads ==>
        (t in x.threads && y.threads[t] == x.threads[t]) || (t == tid && ThreadOk(y, y.threads[t]))
  }

  lemma OthersSurvive(x: System, y: System, tid: Tid)
    requires ThreadsOk(x) && Later(x, y) && OnlyThread(x, y, tid)
    ensures ThreadsOk(y)
  {
    forall t | t in y.threads ensures ThreadOk(y, y.threads[t]) {
      if t in x.threads && y.threads[t] == x.threads[t] { assert ThreadOk(x, x.threads[t]); }
    }
  }

  lemma ExecCreateLater(cfg: Config, x: System, tid: Tid, sid: Sid, handle: string)
    requires Inv(x)
    ensures Later(x, Step(cfg, x, ExecCreate(tid, sid, handle)))
  {
    var y := Step(cfg, x, ExecCreate(tid, sid, handle));
    if y.seen != x.seen {
      assert forall a :: a in x.hashOf ==> x.hashOf[a] in x.hashOf.Values && x.hashOf[a] != Sha256(handle);
    }
  }

  lemma ExecCreateStore(cfg: Config, x: System, tid: Tid, sid: Sid, handle: string)
    requires cfg.Valid() && Inv(x)
    ensures StoreOk(Step(cfg, x, ExecCreate(tid, sid, handle)))
  {
    var y := Step(cfg, x, ExecCreate(tid, sid, handle));
    forall h | h in y.fed.handles ensures HandleOk(y, h) {
      assert h in x.fed.handles ==> HandleOk(x, h);
    }
  }

  lemma ExecCreateHistory(cfg: Config, x: System, tid: Tid, sid: Sid, handle: string)
    requires cfg.Valid() && Inv(x)
    ensures HistoryOk(Step(cfg, x, ExecCreate(tid, sid, handle)))
  {
    hide StoreOk, ThreadsOk;
    ExecCreateLater(cfg, x, tid, sid, handle);
  }

  /** The MULTI of create: a fresh sid and a fresh handle get the same deadline. */
  lemma ExecCreateKeepsInv(cfg: Config, x: System, tid: Tid, sid: Sid, handle: string)
    requires cfg.Valid() && Inv(x)
    ensures Inv(Step(cfg, x, ExecCreate(tid, sid, handle)))
  {
    hide Later, HandleOk, HistoryOk, StoreOk, CreateMulti;
    ExecCreateLater(cfg, x, tid, sid, handle);
    ExecCreateStore(cfg, x, tid, sid, handle);
    ExecCreateHistory(cfg, x, tid, sid, handle);
    OthersSurvive(x, Step(cfg, x, ExecCreate(tid, sid, handle)), tid);
  }

  lemma ExecTouchLater(cfg: Config, x: System, tid: Tid)
    requires cfg.Valid() && Inv(x) && tid in x.threads && x.threads[tid].TouchNext?
    ensures Later(x, Step(cfg, x, Go(tid))) && StoreOk(Step(cfg, x, Go(tid)))
  {
    var y := Step(cfg, x, Go(tid));
    assert ThreadOk(x, x.threads[tid]);
    forall h | h in y.fed.handles ensures HandleOk(y, h) {
      assert HandleOk(x, h);
    }
  }

  /** The MULTI of touch: session and handle move to one deadline, and an expired handle is not brought back. */
  lemma ExecTouchKeepsInv(cfg: Config, x: System, tid: Tid)
    requires cfg.Valid() && Inv(x) && tid in x.threads && x.threads[tid].TouchNext?
    ensures Inv(Step(cfg, x, Go(tid)))
  {
    var y := Step(cfg, x, Go(tid));
    var s := x.threads[tid].s;
    assert ThreadOk(x, x.threads[tid]);
    ExecTouchLater(cfg, x, tid);
    OthersSurvive(x, y, tid);
  }

  lemma ExecRevokeLater(cfg: Config, x: System, tid: Tid)
    requires cfg.Valid() && Inv(x) && tid in x.threads && x.threads[tid].RevokeExec?
    ensures Later(x, Step(cfg, x, Go(tid))) && StoreOk(Step(cfg, x, Go(tid)))
    ensures Dead(Step(cfg, x, Go(tid)), x.threads[tid].sid)
  {
    var y := Step(cfg, x, Go(tid));
    assert ThreadOk(x, x.threads[tid]);
    forall h | h in y.fed.handles ensures HandleOk(y, h) {
      assert HandleOk(x, h);
    }
  }

  lemma ExecRevokeHistory(cfg: Config, x: System, tid: Tid)
    requires cfg.Valid() && Inv(x) && tid in x.threads && x.threads[tid].RevokeExec?
    ensures HistoryOk(Step(cfg, x, Go(tid)))
  {
    hide StoreOk, ThreadsOk;
    ExecRevokeLater(cfg, x, tid);
  }

  /** The MULTI of revoke: afterwards no live handle leads to the sid. */
  lemma ExecRevokeKeepsInv(cfg: Config, x: System, tid: Tid)
    requires cfg.Valid() && Inv(x) && tid in x.threads && x.threads[tid].RevokeExec?
    ensures Inv(Step(cfg, x, Go(tid)))
  {
    hide Later, StoreOk;
    ExecRevokeLater(cfg, x, tid);
    ExecRevokeHistory(cfg, x, tid);
    OthersSurvive(x, Step(cfg, x, Go(tid)), tid);
  }

  /** Events that write neither session nor handle keys. */
  ghost predicate Quiet(x: System, e: Event) {
    !e.ExecCreate? && (e.Go? ==> e.tid in x.threads && !x.threads[e.tid].TouchNext? && !x.threads[e.tid].RevokeExec?)
  }

  ghost predicate SameKeys(x: System, y: System) {
    && y.fed.handles == x.fed.handles && y.fed.sessions == x.fed.sessions && y.hashOf == x.hashOf
    && x.now <= y.now && x.seen <= y.seen
    && (forall sid :: sid in x.returned ==> sid in y.returned && y.returned[sid] == x.returned[sid])
    && (forall sid :: sid in y.returned && sid !in x.returned ==> y.returned[sid] == y.steps)
  }

  lemma AdvancedKeys(y: System, tid: Tid)
    requires tid in y.threads && !y.threads[tid].TouchNext? && !y.threads[tid].RevokeExec?
    ensures SameKeys(y, Advanced(y, tid)) && Advanced(y, tid).steps == y.steps
  {
    hide AlreadyGone, Lookup, WellFormedHandle, Get;
    match y.threads[tid]
    case LookupHandle(_, _) =>
    case LookupSession(_, _, _) =>
    case RevokeSelect(sid, raw) =>
    case _ =>
  }

  lemma BeginKeys(cfg: Config, x: System, e: Event)
    requires !e.ExecCreate? && !e.Go?
    ensures SameKeys(x, Step(cfg, x, e)) && Step(cfg, x, e).steps == x.steps + 1
  {
    match e
    case Advance(ms) =>
    case BeginCreate(tid, itsId) =>
    case BeginLookup(tid, handle) =>
    case BeginTouch(tid, s) =>
    case BeginRevoke(tid, sid) =>
  }

  lemma QuietKeys(cfg: Config, x: System, e: Event)
    requires Quiet(x, e)
    ensures SameKeys(x, Step(cfg, x, e)) && Step(cfg, x, e).steps == x.steps + 1
  {
    hide Advanced;
    if e.Go? {
      var y := x.(steps := x.steps + 1);
      AdvancedKeys(y, e.tid);
      assert Step(cfg, x, e) == Advanced(y, e.tid);
    } else {
      BeginKeys(cfg, x, e);
    }
  }

  lemma QuietLater(cfg: Config, x: System, e: Event)
    requires Inv(x) && Quiet(x, e)
    ensures Later(x, Step(cfg, x, e)) && StoreOk(Step(cfg, x, e))
  {
    QuietKeys(cfg, x, e);
    var y := Step(cfg, x, e);
    forall h | h in y.fed.handles ensures HandleOk(y, h) {
      assert HandleOk(x, h);
    }
  }

  lemma QuietHeld(cfg: Config, x: System, e: Event)
    requires Inv(x) && Quiet(x, e)
    ensures HeldOk(Step(cfg, x, e))
  {
    QuietKeys(cfg, x, e);
    if e.Go? { assert ThreadOk(x, x.threads[e.tid]); }
  }

  lemma QuietAnswers(cfg: Config, x: System, e: Event)
    requires Inv(x) && Quiet(x, e)
    ensures AnswersOk(Step(cfg, x, e))
  {
    QuietKeys(cfg, x, e);
    if e.Go? { assert ThreadOk(x, x.threads[e.tid]); }
  }

  lemma QuietHistory(cfg: Config, x: System, e: Event)
    requires Inv(x) && Quiet(x, e)
    ensures HistoryOk(Step(cfg, x, e))
  {
    QuietKeys(cfg, x, e);
    QuietLater(cfg, x, e);
    QuietHeld(cfg, x, e);
    QuietAnswers(cfg, x, e);
    if e.Go? { assert ThreadOk(x, x.threads[e.tid]); }
  }

  lemma LookedUpThread(cfg: Config, x: System, tid: Tid)
    requires Inv(x) && tid in x.threads && x.threads[tid].LookupHandle?
    ensures OnlyThread(x, Step(cfg, x, Go(tid)), tid)
  {
    hide AnswersOk;
    assert ThreadOk(x, x.threads[tid]);
    if WellFormedHandle(x.threads[tid].handle) {
      var h := Sha256(x.threads[tid].handle);
      assert h in x.fed.handles ==> HandleOk(x, h);
    }
  }

  lemma RevokingThread(cfg: Config, x: System, tid: Tid)
    requires Inv(x) && tid in x.threads && x.threads[tid].RevokeGet?
    ensures OnlyThread(x, Step(cfg, x, Go(tid)), tid)
  {
    hide AnswersOk, HeldOk;
    assert ThreadOk(x, x.threads[tid]);
  }

  lemma RevokeGoesOnThread(cfg: Config, x: System, tid: Tid)
    requires Inv(x) && tid in x.threads && (x.threads[tid].RevokeSelect? || x.threads[tid].RevokeClients?)
    ensures OnlyThread(x, Step(cfg, x, Go(tid)), tid)
  {
    hide HistoryOk, StoreOk, AlreadyGone;
    assert ThreadOk(x, x.threads[tid]);
  }

  /** The other commands are the last of their calls. */
  lemma OtherThread(cfg: Config, x: System, tid: Tid)
    requires Quiet(x, Go(tid)) && !x.threads[tid].LookupHandle?
    requires !x.threads[tid].RevokeGet? && !x.threads[tid].RevokeSelect? && !x.threads[tid].RevokeClients?
    ensures OnlyThread(x, Step(cfg, x, Go(tid)), tid)
  {
    hide Lookup, ThreadOk;
  }

  lemma BegunThread(cfg: Config, x: System, e: Event, tid: Tid)
    requires Inv(x) && !e.ExecCreate? && !e.Go? && (e.Advance? || tid == e.tid)
    ensures OnlyThread(x, Step(cfg, x, e), tid)
  {
    hide StoreOk, AnswersOk, ThreadsOk;
  }

  lemma QuietThread(cfg: Config, x: System, e: Event, tid: Tid)
    requires Inv(x) && Quiet(x, e)
    requires e.Advance? || tid == e.tid
    ensures OnlyThread(x, Step(cfg, x, e), tid)
  {
    hide Inv, OnlyThread, Step;
    if !e.Go? {
      BegunThread(cfg, x, e, tid);
    } else if x.threads[tid].LookupHandle? {
      LookedUpThread(cfg, x, tid);
    } else if x.threads[tid].RevokeGet? {
      RevokingThread(cfg, x, tid);
    } else if x.threads[tid].RevokeSelect? || x.threads[tid].RevokeClients? {
      RevokeGoesOnThread(cfg, x, tid);
    } else {
      OtherThread(cfg, x, tid);
    }
  }

  lemma StepKeepsInv(cfg: Config, x: System, e: Event)
    requires cfg.Valid() && Inv(x)
    ensures Inv(Step(cfg, x, e))
  {
    if e.ExecCreate? {
      ExecCreateKeepsInv(cfg, x, e.tid, e.sid, e.handle);
    } else if e.Go? && e.tid in x.threads && x.threads[e.tid].TouchNext? {
      ExecTouchKeepsInv(cfg, x, e.tid);
    } else if e.Go? && e.tid in x.threads && x.threads[e.tid].RevokeExec? {
      ExecRevokeKeepsInv(cfg, x, e.tid);
    } else if e.Go? && e.tid !in x.threads {
      OthersSurvive(x, Step(cfg, x, e), e.tid);
    } else {
      var tid := if e.Advance? then 0 else e.tid;
      QuietLater(cfg, x, e);
      QuietHistory(cfg, x, e);
      QuietThread(cfg, x, e, tid);
      OthersSurvive(x, Step(cfg, x, e), tid);
    }
  }

  lemma {:induction false} RunKeepsInv(cfg: Config, now: int, events: seq<Event>)
    requires cfg.Valid()
    ensures Inv(Run(cfg, now, events))
  {
    if events != [] {
      RunKeepsInv(cfg, now, events[..|events| - 1]);
      StepKeepsInv(cfg, Run(cfg, now, events[..|events| - 1]), events[|events| - 1]);
    }
  }

  // ---- main results ----

  /** At every reachable state a live handle key leads to a live session key carrying that handle's hash. */
  lemma LiveHandleHasLiveSession(cfg: Config, now: int, events: seq<Event>, h: Hash)
    requires cfg.Valid()
    ensures var y := Run(cfg, now, events);
            Live(y.fed.handles, h, y.now) ==>
              var sid := y.fed.handles[h].value;
              Live(y.fed.sessions, sid, y.now) && y.fed.sessions[sid].value.sid == sid
                && y.fed.sessions[sid].value.handleHash == h
  {
    RunKeepsInv(cfg, now, events);
    var y := Run(cfg, now, events);
    if Live(y.fed.handles, h, y.now) { assert HandleOk(y, h); }
  }

  /** Once some revoke(sid) has returned, with a result or null, no getByHandle that begins later yields sid. */
  lemma RevokedNeverYielded(cfg: Config, now: int, events: seq<Event>, answer: Answer)
    requires cfg.Valid()
    ensures var y := Run(cfg, now, events);
            answer in y.answers && answer.sid in y.returned ==> answer.begun <= y.returned[answer.sid]
  {
    RunKeepsInv(cfg, now, events);
  }

  ghost predicate Reachable(cfg: Config, now: int, y: System) {
    exists events :: y == Run(cfg, now, events)
  }

  lemma ReachableStep(cfg: Config, now: int, y: System, e: Event)
    requires Reachable(cfg, now, y)
    ensures Reachable(cfg, now, Step(cfg, y, e))
  {
    var events :| y == Run(cfg, now, events);
    assert (events + [e])[..|events|] == events;
    assert Step(cfg, y, e) == Run(cfg, now, events + [e]);
  }

  lemma SessionInStore(cfg: Config, handle: string, s: Session) returns (y: System)
    requires cfg.Valid() && s == NewSession(cfg, "u", "sid_1", handle, 0)
    ensures Reachable(cfg, 0, y) && y.now == 0 && y.threads.Keys == {0} && y.threads[0] == CreateInsertNext(s)
    ensures Get(y.fed.sessions, "sid_1", 0) == Some(s) && y.returned == map[]
  {
    assert Start(0) == Run(cfg, 0, []);
    var y1 := Step(cfg, Start(0), BeginCreate(0, "u"));
    ReachableStep(cfg, 0, Start(0), BeginCreate(0, "u"));
    y := Step(cfg, y1, ExecCreate(0, "sid_1", handle));
    ReachableStep(cfg, 0, y1, ExecCreate(0, "sid_1", handle));
  }

  /** A created session that one request is about to touch, its clock already read. */
  lemma TouchInFlight(cfg: Config, handle: string, s: Session) returns (y: System)
    requires cfg.Valid() && s == NewSession(cfg, "u", "sid_1", handle, 0)
    ensures Reachable(cfg, 0, y) && y.now == 0 && y.threads == map[1 := TouchNext(s, TouchTtl(cfg, s, 0))]
    ensures Get(y.fed.sessions, "sid_1", 0) == Some(s) && y.returned == map[]
  {
    var y2 := SessionInStore(cfg, handle, s);
    var y3 := Step(cfg, y2, Go(0));
    ReachableStep(cfg, 0, y2, Go(0));
    y := Step(cfg, y3, BeginTouch(1, s));
    ReachableStep(cfg, 0, y3, BeginTouch(1, s));
  }

  /** Another request begins to revoke it. */
  lemma RevokeBegins(cfg: Config, y: System, t: Thread) returns (z: System)
    requires Reachable(cfg, 0, y) && y.threads == map[1 := t]
    ensures Reachable(cfg, 0, z) && z.now == y.now && z.fed == y.fed && z.returned == y.returned
    ensures z.threads.Keys == {1, 2} && z.threads[1] == t && z.threads[2] == RevokeGet("sid_1")
  {
    z := Step(cfg, y, BeginRevoke(2, "sid_1"));
    ReachableStep(cfg, 0, y, BeginRevoke(2, "sid_1"));
  }

  /** One read of a revoke that finds the session live. */
  lemma RevokeReads(cfg: Config, y: System, s: Session, t: Thread, next: Thread) returns (z: System)
    requires Reachable(cfg, 0, y) && y.now == 0 && y.threads.Keys == {1, 2} && y.threads[1] == t
    requires s.sid == "sid_1" && Get(y.fed.sessions, "sid_1", 0) == Some(s)
    requires match y.threads[2]
             case RevokeGet(sid) => sid == s.sid && next == RevokeSelect(sid, Some(s))
             case RevokeSelect(sid, raw) => sid == s.sid && raw == Some(s) && next == RevokeClients(sid, s.itsId, raw)
             case RevokeClients(sid, itsId, raw) => next == RevokeExec(sid, itsId, raw)
             case _ => false
    ensures Reachable(cfg, 0, z) && z.now == 0 && z.fed == y.fed && z.returned == y.returned
    ensures z.threads.Keys == {1, 2} && z.threads[1] == t && z.threads[2] == next
  {
    z := Step(cfg, y, Go(2));
    ReachableStep(cfg, 0, y, Go(2));
  }

  lemma RevokeWrites(cfg: Config, y: System, s: Session, t: Thread) returns (z: System)
    requires Reachable(cfg, 0, y) && y.now == 0 && y.returned == map[]
    requires y.threads.Keys == {1, 2} && y.threads[1] == t && y.threads[2] == RevokeExec("sid_1", s.itsId, Some(s))
    ensures Reachable(cfg, 0, z) && z.now == 0 && z.threads == map[1 := t] && "sid_1" in z.returned
    ensures s.handleHash !in z.fed.handles
  {
    var a := Step(cfg, y, Go(2));
    ReachableStep(cfg, 0, y, Go(2));
    assert a.threads[2] == RevokeUpdateNext("sid_1");
    z := Step(cfg, a, Go(2));
    ReachableStep(cfg, 0, a, Go(2));
  }

  lemma TouchWrites(cfg: Config, y: System, s: Session) returns (z: System)
    requires cfg.Valid() && Reachable(cfg, 0, y) && y.now == 0 && "sid_1" in y.returned
    requires s.handleHash !in y.fed.handles
    requires s.sid == "sid_1" && s.isActive && 0 < s.absoluteExpiresAt
    requires y.threads == map[1 := TouchNext(s, TouchTtl(cfg, s, 0))]
    ensures Reachable(cfg, 0, z) && z.now == 0 && "sid_1" in z.returned && s.handleHash !in z.fed.handles
    ensures Lookup(z.fed, "sid_1", 0) == Some(s)
  {
    z := Step(cfg, y, Go(1));
    ReachableStep(cfg, 0, y, Go(1));
  }

  /** It is revoked, the touch still to come. */
  lemma RevokedInFlight(cfg: Config, y: System, s: Session, t: Thread) returns (z: System)
    requires Reachable(cfg, 0, y) && y.now == 0 && y.threads == map[1 := t] && y.returned == map[]
    requires s.sid == "sid_1" && s.itsId == "u" && Get(y.fed.sessions, "sid_1", 0) == Some(s)
    ensures Reachable(cfg, 0, z) && z.now == 0 && z.threads == map[1 := t] && "sid_1" in z.returned
    ensures s.handleHash !in z.fed.handles
  {
    var x0 := RevokeBegins(cfg, y, t);
    var x1 := RevokeReads(cfg, x0, s, t, RevokeSelect("sid_1", Some(s)));
    var x2 := RevokeReads(cfg, x1, s, t, RevokeClients("sid_1", "u", Some(s)));
    var x3 := RevokeReads(cfg, x2, s, t, RevokeExec("sid_1", "u", Some(s)));
    z := RevokeWrites(cfg, x3, s, t);
  }

  /** The handle side is all that can be promised: a touch that read the clock before a revoke re-creates the session
      key after that revoke has returned, yet no handle leads to it. */
  lemma LateTouchRecreatesSession(cfg: Config, handle: string)
    requires cfg.Valid()
    ensures exists y :: Reachable(cfg, 0, y) &&
              "sid_1" in y.returned && Lookup(y.fed, "sid_1", y.now).Some? && LookupByHandle(y.fed, handle, y.now).None?
  {
    var s := NewSession(cfg, "u", "sid_1", handle, 0);
    var y := TouchInFlight(cfg, handle, s);
    var z := RevokedInFlight(cfg, y, s, y.threads[1]);
    var last := TouchWrites(cfg, z, s);
  }

  // ---- run alone, the commands of a call are the call ----

  function Steps(cfg: Config, x: System, tid: Tid, n: nat): System
    decreases n
  {
    if n == 0 then x else Steps(cfg, Step(cfg, x, Go(tid)), tid, n - 1)
  }

  /** create: its MULTI and its INSERT. */
  lemma CreateAlone(cfg: Config, x: System, tid: Tid, itsId: ItsId, sid: Sid, handle: string)
    requires tid !in x.threads && sid !in x.seen && Sha256(handle) !in x.hashOf.Values
    ensures var s := NewSession(cfg, itsId, sid, handle, x.now);
            var y := Step(cfg, Step(cfg, x, BeginCreate(tid, itsId)), ExecCreate(tid, sid, handle));
            var z := Step(cfg, y, Go(tid));
            z.fed == Create(x.fed, cfg, s, x.now) && tid !in z.threads && s in z.held && z.now == x.now
  {
  }

  /** touch: its MULTI and its UPDATE. */
  lemma TouchAlone(cfg: Config, x: System, tid: Tid, s: Session)
    requires tid !in x.threads && s in x.held
    ensures var z := Steps(cfg, Step(cfg, x, BeginTouch(tid, s)), tid, 2);
            && z.fed == Touch(x.fed, cfg, s, x.now) && tid !in z.threads && z.now == x.now
            && s.(expiresAt := TouchExpiry(cfg, s, x.now)) in z.held
  {
    var y := Step(cfg, x, BeginTouch(tid, s));
    var a := Step(cfg, y, Go(tid));
    var b := Step(cfg, a, Go(tid));
    assert Steps(cfg, y, tid, 2) == Steps(cfg, a, tid, 1) == Steps(cfg, b, tid, 0) == b;
  }

  /** getByHandle: its two GETs answer what the handle leads to, and nothing if it leads nowhere. */
  lemma LookupAlone(cfg: Config, x: System, tid: Tid, handle: string)
    requires tid !in x.threads
    ensures var z := Steps(cfg, Step(cfg, x, BeginLookup(tid, handle)), tid, 2);
            var r := LookupByHandle(x.fed, handle, x.now);
            && z.fed == x.fed && tid !in z.threads && z.now == x.now
            && z.held == (if r.Some? then x.held + {r.value} else x.held)
            && z.answers == (if r.Some? then x.answers + {Answer(r.value.sid, x.steps + 1)} else x.answers)
  {
    var y := Step(cfg, x, BeginLookup(tid, handle));
    var a := Step(cfg, y, Go(tid));
    var b := Step(cfg, a, Go(tid));
    assert Steps(cfg, y, tid, 2) == Steps(cfg, a, tid, 1) == Steps(cfg, b, tid, 0) == b;
  }

  lemma {:induction false} Idle(cfg: Config, x: System, tid: Tid, n: nat)
    requires tid !in x.threads
    ensures var z := Steps(cfg, x, tid, n);
            z.fed == x.fed && tid !in z.threads && z.returned == x.returned && z.now == x.now
    decreases n
  {
    if 0 < n { Idle(cfg, Step(cfg, x, Go(tid)), tid, n - 1); }
  }

  lemma RevokeReadsAlone(cfg: Config, x: System, tid: Tid, sid: Sid) returns (b: System)
    requires tid in x.threads && x.threads[tid] == RevokeGet(sid)
    ensures b == Step(cfg, Step(cfg, x, Go(tid)), Go(tid)) && b.fed == x.fed && b.now == x.now
    ensures var raw := Get(x.fed.sessions, sid, x.now);
            if AlreadyGone(x.fed, sid, raw) then tid !in b.threads && sid in b.returned
            else tid in b.threads && b.threads[tid]
                   == RevokeClients(sid, if raw.Some? then raw.value.itsId else x.fed.rows[sid].itsId, raw)
  {
    hide AlreadyGone;
    var a := Step(cfg, x, Go(tid));
    assert a.threads[tid] == RevokeSelect(sid, Get(x.fed.sessions, sid, x.now)) && a.fed == x.fed && a.now == x.now;
    b := Step(cfg, a, Go(tid));
  }

  lemma RevokeWritesAlone(cfg: Config, x: System, tid: Tid, sid: Sid, itsId: ItsId, raw: Option<Session>)
    returns (g: System)
    requires tid in x.threads && x.threads[tid] == RevokeClients(sid, itsId, raw)
    ensures g == Step(cfg, Step(cfg, Step(cfg, x, Go(tid)), Go(tid)), Go(tid))
    ensures g.fed == RevokeUpdate(RevokeMulti(x.fed, sid, itsId, raw, x.now), sid, x.now)
    ensures g.now == x.now && tid !in g.threads && sid in g.returned
  {
    hide RevokeMulti, RevokeUpdate;
    var d := Step(cfg, x, Go(tid));
    assert d.threads[tid] == RevokeExec(sid, itsId, raw) && d.fed == x.fed && d.now == x.now;
    var e := Step(cfg, d, Go(tid));
    assert e.threads[tid] == RevokeUpdateNext(sid) && e.now == x.now;
    assert e.fed == RevokeMulti(x.fed, sid, itsId, raw, x.now);
    g := Step(cfg, e, Go(tid));
  }

  lemma TwoMore(cfg: Config, x: System, tid: Tid, n: nat)
    ensures Steps(cfg, x, tid, n + 2) == Steps(cfg, Step(cfg, Step(cfg, x, Go(tid)), Go(tid)), tid, n)
  {
    hide Step;
    assert Steps(cfg, x, tid, n + 2) == Steps(cfg, Step(cfg, x, Go(tid)), tid, n + 1);
  }

  /** revoke: GET, SELECT, clients, MULTI and UPDATE, or only the first two if there is nothing to revoke. */
  lemma RevokeAlone(cfg: Config, x: System, tid: Tid, sid: Sid)
    requires tid !in x.threads
    ensures var z := Steps(cfg, Step(cfg, x, BeginRevoke(tid, sid)), tid, 5);
            z.fed == Revoke(x.fed, sid, x.now).0 && tid !in z.threads && sid in z.returned && z.now == x.now
  {
    hide RevokeMulti, RevokeUpdate, Clients, AlreadyGone, Advanced, Steps;
    var y := Step(cfg, x, BeginRevoke(tid, sid));
    var b := RevokeReadsAlone(cfg, y, tid, sid);
    TwoMore(cfg, y, tid, 3);
    var raw := Get(x.fed.sessions, sid, x.now);
    if AlreadyGone(x.fed, sid, raw) {
      Idle(cfg, b, tid, 3);
    } else {
      var g := RevokeWritesAlone(cfg, b, tid, sid, b.threads[tid].itsId, raw);
      TwoMore(cfg, b, tid, 1);
      LastOne(cfg, Step(cfg, Step(cfg, b, Go(tid)), Go(tid)), tid);
    }
  }

  lemma LastOne(cfg: Config, x: System, tid: Tid)
    ensures Steps(cfg, x, tid, 1) == Step(cfg, x, Go(tid))
  {
    hide Step;
    assert Steps(cfg, Step(cfg, x, Go(tid)), tid, 0) == Step(cfg, x, Go(tid));
  }
}
