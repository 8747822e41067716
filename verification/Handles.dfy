/** When the handle of a browser session answers what its session answers, over whole runs of the session service. */
module Handles {
  import opened Wrappers
  import opened Redis
  import opened FederationSessions
  import opened SessionRuns

  // ---- the invariant ----

  /** Every sid has its own handle, carried by every copy of its session; a handle key leads to the sid of its
      handle. */
  ghost predicate Named(x: Sys) {
    && x.hashOf.Keys == x.fed.rows.Keys
    && (forall a, b :: a in x.hashOf && b in x.hashOf && x.hashOf[a] == x.hashOf[b] ==> a == b)
    && (forall s :: s in x.held ==> s.sid in x.hashOf && s.handleHash == x.hashOf[s.sid])
    && (forall sid :: sid in x.fed.sessions ==>
          sid in x.hashOf && x.fed.sessions[sid].value.handleHash == x.hashOf[sid])
    && (forall h :: h in x.fed.handles ==>
          x.fed.handles[h].value in x.hashOf && x.hashOf[x.fed.handles[h].value] == h)
  }

  /** Both keys are live until the same moment, or neither is. */
  predicate Paired(f: Fed, sid: Sid, h: Hash, now: int) {
    && (Live(f.handles, h, now) <==> Live(f.sessions, sid, now))
    && (Live(f.sessions, sid, now) ==> f.handles[h].deadline == f.sessions[sid].deadline)
  }

  /** The handle key moves with the session key until a touch comes after it has gone; then it is gone for good. */
  ghost predicate HandleOk(x: Sys, sid: Sid)
    requires sid in x.hashOf && sid in x.fed.rows
  {
    if sid in x.detached then !Live(x.fed.handles, x.hashOf[sid], x.now)
    else x.fed.rows[sid].absoluteExpiresAt <= x.now || Paired(x.fed, sid, x.hashOf[sid], x.now)
  }

  ghost predicate HandlesOk(x: Sys) {
    && Named(x) && x.detached <= x.hashOf.Keys && x.detached <= x.stale
    && forall sid :: sid in x.hashOf ==> HandleOk(x, sid)
  }

  /** What a call leaves as it was keeps its handle in order. */
  lemma SameKeysKeepHandle(x: Sys, y: Sys, sid: Sid)
    requires sid in x.hashOf && sid in x.fed.rows && HandleOk(x, sid)
    requires sid in y.hashOf && sid in y.fed.rows && y.hashOf[sid] == x.hashOf[sid] && y.now == x.now
    requires sid in y.detached <==> sid in x.detached
    requires y.fed.rows[sid].absoluteExpiresAt == x.fed.rows[sid].absoluteExpiresAt
    requires var h := x.hashOf[sid];
             && (h in y.fed.handles <==> h in x.fed.handles)
             && (h in x.fed.handles ==> y.fed.handles[h] == x.fed.handles[h])
             && (sid in y.fed.sessions <==> sid in x.fed.sessions)
             && (sid in x.fed.sessions ==> y.fed.sessions[sid] == x.fed.sessions[sid])
    ensures HandleOk(y, sid)
  {
  }

  lemma CreateKeepsNamed(cfg: Config, x: Sys, itsId: ItsId, sid: Sid, handle: string)
    requires Named(x)
    ensures Named(Step(cfg, x, CreateOp(itsId, sid, handle)))
  {
    forall a | a in x.hashOf && Sha256(handle) !in x.hashOf.Values ensures x.hashOf[a] != Sha256(handle) {
      assert x.hashOf[a] in x.hashOf.Values;
    }
  }

  lemma CreateKeepsHandle(cfg: Config, x: Sys, itsId: ItsId, sid: Sid, handle: string, a: Sid)
    requires cfg.Valid() && Named(x) && x.detached <= x.hashOf.Keys
    requires sid !in x.fed.rows && Sha256(handle) !in x.hashOf.Values
    requires a != sid ==> a in x.hashOf && HandleOk(x, a)
    ensures var y := Step(cfg, x, CreateOp(itsId, sid, handle)); a in y.hashOf && a in y.fed.rows && HandleOk(y, a)
  {
    hide HandleOk;
    var y := Step(cfg, x, CreateOp(itsId, sid, handle));
    if a == sid {
      NewHandle(y, sid);
    } else {
      assert x.hashOf[a] in x.hashOf.Values;
      SameKeysKeepHandle(x, y, a);
    }
  }

  lemma NewHandle(y: Sys, sid: Sid)
    requires sid in y.hashOf && sid in y.fed.rows && sid !in y.detached && sid in y.fed.sessions
    requires y.hashOf[sid] in y.fed.handles
    requires y.fed.handles[y.hashOf[sid]].deadline == y.fed.sessions[sid].deadline
    ensures HandleOk(y, sid)
  {
  }

  lemma CreateKeepsHandles(cfg: Config, x: Sys, itsId: ItsId, sid: Sid, handle: string)
    requires cfg.Valid() && HandlesOk(x)
    ensures HandlesOk(Step(cfg, x, CreateOp(itsId, sid, handle)))
  {
    hide HandleOk, Create;
    var y := Step(cfg, x, CreateOp(itsId, sid, handle));
    if y != x {
      CreateKeepsNamed(cfg, x, itsId, sid, handle);
      forall a | a in y.hashOf ensures HandleOk(y, a) { CreateKeepsHandle(cfg, x, itsId, sid, handle, a); }
    }
  }

  lemma TouchKeepsNamed(cfg: Config, x: Sys, s: Session)
    requires Inv(cfg, x) && Named(x) && s in x.held
    ensures Named(Step(cfg, x, TouchOp(s)))
  {
  }

  /** EXPIRE moves a live handle key to the deadline of the session key, and does not bring a dead one back. */
  lemma TouchKeepsItsHandle(cfg: Config, x: Sys, s: Session)
    requires cfg.Valid() && SessionsOk(cfg, x) && Named(x) && s in x.held && s.sid in x.fed.rows && HandleOk(x, s.sid)
    ensures var y := Step(cfg, x, TouchOp(s)); s.sid in y.hashOf && s.sid in y.fed.rows && HandleOk(y, s.sid)
  {
    assert Genuine(x.fed, s);
  }

  lemma TouchKeepsOtherHandle(cfg: Config, x: Sys, s: Session, sid: Sid)
    requires Named(x) && s in x.held && sid in x.hashOf && sid != s.sid && HandleOk(x, sid)
    ensures var y := Step(cfg, x, TouchOp(s)); sid in y.hashOf && sid in y.fed.rows && HandleOk(y, sid)
  {
    hide HandleOk;
    assert x.hashOf[sid] != s.handleHash;
    SameKeysKeepHandle(x, Step(cfg, x, TouchOp(s)), sid);
  }

  lemma TouchKeepsHandle(cfg: Config, x: Sys, s: Session, sid: Sid)
    requires cfg.Valid() && Inv(cfg, x) && HandlesOk(x) && s in x.held && sid in x.hashOf
    ensures var y := Step(cfg, x, TouchOp(s)); sid in y.hashOf && sid in y.fed.rows && HandleOk(y, sid)
  {
    hide HandleOk, SessionsOk, Step;
    assert HandleOk(x, sid);
    if sid == s.sid { TouchKeepsItsHandle(cfg, x, s); } else { TouchKeepsOtherHandle(cfg, x, s, sid); }
  }

  lemma RevokeKeepsNamed(cfg: Config, x: Sys, sid: Sid)
    requires Inv(cfg, x) && Named(x)
    ensures Named(x.(fed := Revoke(x.fed, sid, x.now).0))
  {
    RevokeOutcome(cfg, x, sid);
  }

  /** A revoke deletes both keys if the session key is live; if it is not, the handle key is dead as well. */
  lemma RevokeKeepsItsHandle(cfg: Config, x: Sys, sid: Sid)
    requires Inv(cfg, x) && Named(x) && sid in x.hashOf && HandleOk(x, sid)
    ensures var g := Revoke(x.fed, sid, x.now).0; sid in g.rows && HandleOk(x.(fed := g), sid)
  {
    RevokeOutcome(cfg, x, sid);
  }

  lemma RevokedHandles(f: Fed, sid: Sid, now: int)
    ensures var raw := Get(f.sessions, sid, now);
            Revoke(f, sid, now).0.handles == if raw.Some? then Del(f.handles, raw.value.handleHash) else f.handles
  {
    hide Clients, SRem, Participants;
  }

  lemma RevokeLeavesOtherHandle(x: Sys, sid: Sid, h: Hash)
    requires Named(x) && (sid in x.hashOf ==> x.hashOf[sid] != h)
    ensures var g := Revoke(x.fed, sid, x.now).0;
            (h in g.handles <==> h in x.fed.handles) && (h in x.fed.handles ==> g.handles[h] == x.fed.handles[h])
  {
    hide Revoke;
    RevokedHandles(x.fed, sid, x.now);
  }

  lemma RevokeKeepsOtherHandle(cfg: Config, x: Sys, sid: Sid, other: Sid)
    requires Inv(cfg, x) && Named(x) && other in x.hashOf && other != sid && HandleOk(x, other)
    ensures var g := Revoke(x.fed, sid, x.now).0; other in g.rows && HandleOk(x.(fed := g), other)
  {
    hide HandleOk, Inv, Revoke;
    RevokeOutcome(cfg, x, sid);
    RevokeLeavesOthers(x.fed, sid, x.now, other);
    RevokeLeavesOtherHandle(x, sid, x.hashOf[other]);
    SameKeysKeepHandle(x, x.(fed := Revoke(x.fed, sid, x.now).0), other);
  }

  lemma RevokeKeepsHandles(cfg: Config, x: Sys, sid: Sid)
    requires Inv(cfg, x) && HandlesOk(x)
    ensures HandlesOk(x.(fed := Revoke(x.fed, sid, x.now).0))
  {
    hide HandleOk, Inv, Revoke;
    RevokeKeepsNamed(cfg, x, sid);
    var g := Revoke(x.fed, sid, x.now).0;
    forall a | a in x.hashOf ensures a in g.rows && HandleOk(x.(fed := g), a) {
      if a == sid { RevokeKeepsItsHandle(cfg, x, sid); } else { RevokeKeepsOtherHandle(cfg, x, sid, a); }
    }
  }

  lemma {:induction false} RevokeEachKeepsHandles(cfg: Config, x: Sys, order: seq<Sid>)
    requires Inv(cfg, x) && HandlesOk(x)
    ensures HandlesOk(x.(fed := RevokeEach(x.fed, order, x.now).0))
  {
    if order == [] {
      assert x.(fed := RevokeEach(x.fed, order, x.now).0) == x;
    } else {
      var front, last := order[..|order| - 1], order[|order| - 1];
      RevokeEachKeepsHandles(cfg, x, front);
      RevokeEachKeepsInv(cfg, x, front);
      RevokeKeepsHandles(cfg, x.(fed := RevokeEach(x.fed, front, x.now).0), last);
    }
  }

  /** get would not have answered either. */
  lemma DetachedIsStale(cfg: Config, x: Sys, s: Session)
    requires cfg.Valid() && Inv(cfg, x) && HandlesOk(x) && s in x.held
    ensures var y := Step(cfg, x, TouchOp(s)); y.detached <= y.hashOf.Keys && y.detached <= y.stale
  {
    assert HandleOk(x, s.sid) && Genuine(x.fed, s);
  }

  /** What neither writes a handle or session key nor stamps a row. */
  lemma QuietHandles(x: Sys, y: Sys)
    requires HandlesOk(x) && y.now == x.now && y.hashOf == x.hashOf && y.detached == x.detached && x.stale <= y.stale
    requires y.fed.handles == x.fed.handles && y.fed.sessions == x.fed.sessions && y.fed.rows == x.fed.rows
    requires forall s :: s in y.held && s !in x.held ==> s.sid in x.fed.sessions && x.fed.sessions[s.sid].value == s
    ensures HandlesOk(y)
  {
    forall sid | sid in y.hashOf ensures HandleOk(y, sid) { assert HandleOk(x, sid); }
  }

  lemma RevokesKeepHandles(cfg: Config, x: Sys, op: Op)
    requires Inv(cfg, x) && HandlesOk(x) && (op.RevokeOp? || op.RevokeAllOp?)
    ensures HandlesOk(Step(cfg, x, op))
  {
    hide HandlesOk, Inv, Revoke, RevokeEach;
    match op
    case RevokeOp(sid) =>
      RevokeKeepsHandles(cfg, x, sid);
      QuietHandles(x.(fed := Revoke(x.fed, sid, x.now).0), Step(cfg, x, op));
    case RevokeAllOp(itsId, order) =>
      if Enumerates(order, UserSids(x.fed, itsId, x.now)) {
        RevokeEachKeepsHandles(cfg, x, order);
        QuietHandles(x.(fed := RevokeEach(x.fed, order, x.now).0), Step(cfg, x, op));
      }
  }

  lemma TouchKeepsHandles(cfg: Config, x: Sys, s: Session)
    requires cfg.Valid() && Inv(cfg, x) && HandlesOk(x)
    ensures HandlesOk(Step(cfg, x, TouchOp(s)))
  {
    hide Inv, HandleOk, Touch;
    if s in x.held {
      TouchKeepsNamed(cfg, x, s);
      DetachedIsStale(cfg, x, s);
      forall sid | sid in x.hashOf ensures HandleOk(Step(cfg, x, TouchOp(s)), sid) {
        TouchKeepsHandle(cfg, x, s, sid);
      }
    }
  }

  lemma TimeKeepsHandles(x: Sys, ms: nat)
    requires HandlesOk(x)
    ensures HandlesOk(x.(now := x.now + ms))
  {
    forall sid | sid in x.hashOf ensures HandleOk(x.(now := x.now + ms), sid) { assert HandleOk(x, sid); }
  }

  lemma GetKeepsHandles(cfg: Config, x: Sys, sid: Sid)
    requires Inv(cfg, x) && HandlesOk(x)
    ensures HandlesOk(Step(cfg, x, GetOp(sid)))
  {
    hide HandlesOk;
    QuietHandles(x, Step(cfg, x, GetOp(sid)));
  }

  lemma StepKeepsHandles(cfg: Config, x: Sys, op: Op)
    requires cfg.Valid() && Inv(cfg, x) && HandlesOk(x)
    ensures HandlesOk(Step(cfg, x, op))
  {
    hide HandlesOk, Inv;
    match op
    case Tick(ms) => TimeKeepsHandles(x, ms);
    case CreateOp(itsId, sid, handle) => CreateKeepsHandles(cfg, x, itsId, sid, handle);
    case TouchOp(s) => TouchKeepsHandles(cfg, x, s);
    case RevokeOp(_) => RevokesKeepHandles(cfg, x, op);
    case RevokeAllOp(_, _) => RevokesKeepHandles(cfg, x, op);
    case GetOp(sid) => GetKeepsHandles(cfg, x, sid);
    case AddClientOp(s, client) => QuietHandles(x, Step(cfg, x, op));
  }

  lemma {:induction false} RunKeepsHandles(cfg: Config, start: int, ops: seq<Op>)
    requires cfg.Valid()
    ensures HandlesOk(Run(cfg, start, ops))
  {
    if ops != [] {
      RunKeepsHandles(cfg, start, ops[..|ops| - 1]);
      RunKeepsInv(cfg, start, ops[..|ops| - 1]);
      StepKeepsHandles(cfg, Run(cfg, start, ops[..|ops| - 1]), ops[|ops| - 1]);
    }
  }

  // ---- main results ----

  lemma PairedAnswers(cfg: Config, x: Sys, sid: Sid, handle: string, later: int)
    requires Inv(cfg, x) && HandlesOk(x) && WellFormedHandle(handle)
    requires sid in x.hashOf && x.hashOf[sid] == Sha256(handle) && sid !in x.detached && x.now <= later
    ensures LookupByHandle(x.fed, handle, later) == Lookup(x.fed, sid, later)
  {
    assert HandleOk(x, sid);
  }

  /** As long as no touch of the session came after its handle key had gone, the handle answers exactly what the sid
      answers, now and at every later time until the next call: both keys end together. */
  lemma HandleAnswersAsSession(cfg: Config, start: int, ops: seq<Op>, sid: Sid, handle: string, later: int)
    requires cfg.Valid() && WellFormedHandle(handle)
    requires var x := Run(cfg, start, ops);
             sid in x.hashOf && x.hashOf[sid] == Sha256(handle) && sid !in x.detached && x.now <= later
    ensures var x := Run(cfg, start, ops); LookupByHandle(x.fed, handle, later) == Lookup(x.fed, sid, later)
  {
    RunKeepsHandles(cfg, start, ops);
    RunKeepsInv(cfg, start, ops);
    PairedAnswers(cfg, Run(cfg, start, ops), sid, handle, later);
  }

  /** In particular if the session was touched only while get answered it. */
  lemma TouchedInTimeAnswers(cfg: Config, start: int, ops: seq<Op>, sid: Sid, handle: string, later: int)
    requires cfg.Valid() && WellFormedHandle(handle)
    requires var x := Run(cfg, start, ops);
             sid in x.hashOf && x.hashOf[sid] == Sha256(handle) && sid !in x.stale && x.now <= later
    ensures var x := Run(cfg, start, ops); LookupByHandle(x.fed, handle, later) == Lookup(x.fed, sid, later)
  {
    RunKeepsHandles(cfg, start, ops);
    HandleAnswersAsSession(cfg, start, ops, sid, handle, later);
  }

  /** After m calls of the run the handle and the sid get different answers. */
  ghost predicate DiffersAt(cfg: Config, start: int, ops: seq<Op>, sid: Sid, handle: string, m: int) {
    0 <= m <= |ops| &&
    var x := Run(cfg, start, ops[..m]); LookupByHandle(x.fed, handle, x.now) != Lookup(x.fed, sid, x.now)
  }

  /** A touch after the handle key has gone: the sid is obtained again, the handle is not. */
  lemma LateTouchDetaches(cfg: Config, x: Sys, s: Session, handle: string)
    requires cfg.Valid() && Inv(cfg, x) && HandlesOk(x) && s in x.held && s.handleHash == Sha256(handle)
    requires !KeepsHandle(x.fed, s, x.now)
    ensures var y := Step(cfg, x, TouchOp(s));
            LookupByHandle(y.fed, handle, y.now).None? && Lookup(y.fed, s.sid, y.now).Some?
  {
    assert HandleOk(x, s.sid) && Genuine(x.fed, s);
    assert 1 <= TouchTtl(cfg, s, x.now);
  }

  /** Histories only grow, and a sid is detached by a touch only. */
  lemma StepKeepsHistory(cfg: Config, x: Sys, op: Op)
    requires Named(x)
    ensures var y := Step(cfg, x, op);
            && (forall a :: a in x.hashOf ==> a in y.hashOf && y.hashOf[a] == x.hashOf[a])
            && x.detached <= y.detached
    ensures var y := Step(cfg, x, op);
            forall a :: a in y.detached && a !in x.detached ==>
              op.TouchOp? && op.s in x.held && op.s.sid == a && !KeepsHandle(x.fed, op.s, x.now)
  {
  }

  lemma {:induction false} RunKeepsHistory(cfg: Config, start: int, ops: seq<Op>, m: nat)
    requires cfg.Valid() && m <= |ops|
    ensures var x, y := Run(cfg, start, ops[..m]), Run(cfg, start, ops);
            && (forall a :: a in x.hashOf ==> a in y.hashOf && y.hashOf[a] == x.hashOf[a])
            && x.detached <= y.detached
  {
    hide Step;
    if m == |ops| {
      assert ops[..m] == ops;
    } else {
      var front := ops[..|ops| - 1];
      assert front[..m] == ops[..m];
      RunKeepsHistory(cfg, start, front, m);
      RunKeepsHandles(cfg, start, front);
      StepKeepsHistory(cfg, Run(cfg, start, front), ops[|ops| - 1]);
    }
  }

  /** Before the session is created neither answers, and afterwards both do alike until it is detached. */
  lemma AgreesUntilDetached(cfg: Config, start: int, ops: seq<Op>, sid: Sid, handle: string, m: int)
    requires cfg.Valid() && WellFormedHandle(handle) && DiffersAt(cfg, start, ops, sid, handle, m)
    requires var y := Run(cfg, start, ops); sid in y.hashOf && y.hashOf[sid] == Sha256(handle)
    ensures sid in Run(cfg, start, ops).detached
  {
    hide Run, Inv, HandleOk, Lookup;
    var x := Run(cfg, start, ops[..m]);
    RunKeepsHistory(cfg, start, ops, m);
    RunKeepsHandles(cfg, start, ops);
    RunKeepsHandles(cfg, start, ops[..m]);
    RunKeepsInv(cfg, start, ops[..m]);
    if sid !in x.detached {
      if sid in x.hashOf {
        PairedAnswers(cfg, x, sid, handle, x.now);
      } else {
        NotCreatedYet(x, sid, handle);
      }
    }
  }

  lemma NotCreatedYet(x: Sys, sid: Sid, handle: string)
    requires Named(x) && sid !in x.hashOf && forall a :: a in x.hashOf ==> x.hashOf[a] != Sha256(handle)
    ensures LookupByHandle(x.fed, handle, x.now) == Lookup(x.fed, sid, x.now) == None
  {
  }

  lemma {:induction false} DetachedDiffers(cfg: Config, start: int, ops: seq<Op>, sid: Sid, handle: string)
    returns (m: nat)
    requires cfg.Valid() && sid in Run(cfg, start, ops).detached
    requires var y := Run(cfg, start, ops); sid in y.hashOf && y.hashOf[sid] == Sha256(handle)
    ensures DiffersAt(cfg, start, ops, sid, handle, m)
  {
    hide Step, Lookup, LookupByHandle, HandleOk, Inv;
    var front, op := ops[..|ops| - 1], ops[|ops| - 1];
    var x := Run(cfg, start, front);
    RunKeepsHandles(cfg, start, front);
    RunKeepsInv(cfg, start, front);
    StepKeepsHistory(cfg, x, op);
    if sid in x.detached {
      m := DetachedDiffers(cfg, start, front, sid, handle);
      assert front[..m] == ops[..m];
    } else {
      LateTouchDetaches(cfg, x, op.s, handle);
      m := |ops|;
      assert ops[..m] == ops;
    }
  }

  /** At every moment of a run the handle answers what its sid answers if and only if the session was never touched,
      before its absolute expiry, after its handle key had gone. */
  lemma AnswersThroughoutExactlyWhen(cfg: Config, start: int, ops: seq<Op>, sid: Sid, handle: string)
    requires cfg.Valid() && WellFormedHandle(handle)
    requires var y := Run(cfg, start, ops); sid in y.hashOf && y.hashOf[sid] == Sha256(handle)
    ensures (exists m :: DiffersAt(cfg, start, ops, sid, handle, m)) <==> sid in Run(cfg, start, ops).detached
  {
    if sid in Run(cfg, start, ops).detached {
      var m := DetachedDiffers(cfg, start, ops, sid, handle);
    }
    forall m | DiffersAt(cfg, start, ops, sid, handle, m) ensures sid in Run(cfg, start, ops).detached {
      AgreesUntilDetached(cfg, start, ops, sid, handle, m);
    }
  }

  /** This happens for every configuration with an idle lifetime below the absolute one: a request obtains the session
      just before it lapses and touches it just after. */
  lemma StraddlingDetaches(cfg: Config, itsId: ItsId, sid: Sid, handle: string)
    requires cfg.Valid() && cfg.idleTtl < cfg.absoluteTtl && WellFormedHandle(handle)
    ensures var s := NewSession(cfg, itsId, sid, handle, 0);
            var x := Run(cfg, 0, [CreateOp(itsId, sid, handle)] + [Tick(cfg.idleTtl * 1000)] + [TouchOp(s)]);
            LookupByHandle(x.fed, handle, x.now).None? && Lookup(x.fed, sid, x.now).Some?
  {
    var s := NewSession(cfg, itsId, sid, handle, 0);
    var a, b := [CreateOp(itsId, sid, handle)], Tick(cfg.idleTtl * 1000);
    assert a[..0] == [];
    var x := Step(cfg, Step(cfg, Start(0), a[0]), b);
    RunMore(cfg, 0, a, b);
    RunMore(cfg, 0, a + [b], TouchOp(s));
    RunKeepsHandles(cfg, 0, a + [b]);
    RunKeepsInv(cfg, 0, a + [b]);
    LateTouchDetaches(cfg, x, s, handle);
  }
}
