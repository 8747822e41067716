/** What revocation promises while requests may still hold the session: exactly when a revoked session comes back. */
module Revocation {
  import opened Wrappers
  import opened Redis
  import opened FederationSessions
  import opened SessionRuns

  /** The session is revoked and its key is gone, as when revoke has just returned. */
  predicate Gone(x: Sys, sid: Sid) {
    sid in x.fed.rows && x.fed.rows[sid].revokedAt.Some? && !Live(x.fed.sessions, sid, x.now)
  }

  /** A request that still holds a session object of the sid touches it. */
  predicate Touches(x: Sys, op: Op, sid: Sid) {
    op.TouchOp? && op.s in x.held && op.s.sid == sid
  }

  ghost predicate TouchesAt(cfg: Config, start: int, ops: seq<Op>, more: seq<Op>, sid: Sid, m: int) {
    0 <= m < |more| && Touches(Run(cfg, start, ops + more[..m]), more[m], sid)
  }

  ghost predicate TouchesBeforeExpiryAt(cfg: Config, start: int, ops: seq<Op>, more: seq<Op>, sid: Sid, m: int) {
    && TouchesAt(cfg, start, ops, more, sid, m)
    && var x := Run(cfg, start, ops + more[..m]); x.now < more[m].s.absoluteExpiresAt
  }

  ghost predicate ObtainableAt(cfg: Config, start: int, ops: seq<Op>, more: seq<Op>, sid: Sid, m: int) {
    0 <= m <= |more| && var x := Run(cfg, start, ops + more[..m]); Answers(x.fed, sid, x.now)
  }

  /** A revoke at this moment would return a result for the sid. */
  ghost predicate ReturnedAt(cfg: Config, start: int, ops: seq<Op>, more: seq<Op>, sid: Sid, m: int) {
    0 <= m <= |more| && var x := Run(cfg, start, ops + more[..m]); Revoke(x.fed, sid, x.now).1.Some?
  }

  /** The row of a revoked session stays revoked, and its key stays gone unless it was live before. */
  ghost predicate StaysGone(x: Sys, y: Sys, sid: Sid)
    requires sid in x.fed.rows
  {
    && sid in y.fed.rows && y.fed.rows[sid].revokedAt.Some?
    && y.fed.rows[sid].absoluteExpiresAt == x.fed.rows[sid].absoluteExpiresAt && x.now <= y.now
    && (!Live(x.fed.sessions, sid, x.now) ==> !Live(y.fed.sessions, sid, y.now))
  }

  lemma OneRevokeKeepsGone(cfg: Config, x: Sys, s: Sid, sid: Sid)
    requires Inv(cfg, x) && sid in x.fed.rows && x.fed.rows[sid].revokedAt.Some?
    ensures StaysGone(x, Step(cfg, x, RevokeOp(s)), sid)
  {
    hide Inv;
    RevokeOutcome(cfg, x, s);
    if s != sid { RevokeLeavesOthers(x.fed, s, x.now, sid); }
  }

  lemma RevokesKeepGone(cfg: Config, x: Sys, itsId: ItsId, order: seq<Sid>, sid: Sid)
    requires Inv(cfg, x) && sid in x.fed.rows && x.fed.rows[sid].revokedAt.Some?
    ensures StaysGone(x, Step(cfg, x, RevokeAllOp(itsId, order)), sid)
  {
    hide Inv, Revoke, RevokeEach;
    if Enumerates(order, UserSids(x.fed, itsId, x.now)) {
      RevokeEachFacts(cfg, x, order);
      RevokedRowStays(cfg, x, order, sid);
      assert sid !in order ==> Untouched(x.fed, RevokeEach(x.fed, order, x.now).0, x.now, sid);
    }
  }

  lemma CreateKeepsGone(cfg: Config, x: Sys, itsId: ItsId, s: Sid, handle: string, sid: Sid)
    requires sid in x.fed.rows && x.fed.rows[sid].revokedAt.Some?
    ensures StaysGone(x, Step(cfg, x, CreateOp(itsId, s, handle)), sid)
  {
  }

  lemma OtherTouchKeepsGone(cfg: Config, x: Sys, s: Session, sid: Sid)
    requires sid in x.fed.rows && x.fed.rows[sid].revokedAt.Some? && s.sid != sid
    ensures StaysGone(x, Step(cfg, x, TouchOp(s)), sid)
  {
    hide Touch, KeepsHandle, Answers, IsRevoked;
    TouchWrites(x.fed, cfg, s, x.now);
  }

  lemma QuietStaysGone(x: Sys, y: Sys, sid: Sid)
    requires sid in x.fed.rows && x.fed.rows[sid].revokedAt.Some? && x.now <= y.now
    requires y.fed.sessions == x.fed.sessions && y.fed.rows == x.fed.rows
    ensures StaysGone(x, y, sid)
  {
  }

  lemma OtherKeepsGone(cfg: Config, x: Sys, op: Op, sid: Sid)
    requires Inv(cfg, x) && sid in x.fed.rows && x.fed.rows[sid].revokedAt.Some? && !Touches(x, op, sid)
    ensures StaysGone(x, Step(cfg, x, op), sid)
  {
    hide Inv, StaysGone;
    match op
    case RevokeOp(s) => OneRevokeKeepsGone(cfg, x, s, sid);
    case RevokeAllOp(itsId, order) => RevokesKeepGone(cfg, x, itsId, order, sid);
    case CreateOp(itsId, s, handle) => CreateKeepsGone(cfg, x, itsId, s, handle, sid);
    case TouchOp(s) => if s.sid != sid { OtherTouchKeepsGone(cfg, x, s, sid); } else { QuietStaysGone(x, x, sid); }
    case GetOp(_) => QuietStaysGone(x, Step(cfg, x, op), sid);
    case AddClientOp(_, _) => QuietStaysGone(x, Step(cfg, x, op), sid);
    case Tick(_) => QuietStaysGone(x, Step(cfg, x, op), sid);
  }

  lemma TouchKeepsRevoked(cfg: Config, x: Sys, op: Op, sid: Sid)
    requires sid in x.fed.rows && x.fed.rows[sid].revokedAt.Some? && Touches(x, op, sid)
    ensures var y := Step(cfg, x, op);
            && sid in y.fed.rows && y.fed.rows[sid].revokedAt.Some?
            && y.fed.rows[sid].absoluteExpiresAt == x.fed.rows[sid].absoluteExpiresAt && x.now <= y.now
  {
  }

  /** One step without a touch keeps the key gone; with a touch only after absolute expiry, unobtainable. */
  lemma StepKeepsGone(cfg: Config, x: Sys, op: Op, sid: Sid)
    requires Inv(cfg, x) && sid in x.fed.rows && x.fed.rows[sid].revokedAt.Some?
    ensures var y := Step(cfg, x, op);
            && sid in y.fed.rows && y.fed.rows[sid].revokedAt.Some?
            && y.fed.rows[sid].absoluteExpiresAt == x.fed.rows[sid].absoluteExpiresAt
            && x.now <= y.now
            && (!Live(x.fed.sessions, sid, x.now) && !Touches(x, op, sid) ==> !Live(y.fed.sessions, sid, y.now))
  {
    hide Step;
    if Touches(x, op, sid) { TouchKeepsRevoked(cfg, x, op, sid); } else { OtherKeepsGone(cfg, x, op, sid); }
  }

  lemma {:induction false} RevokedRowStays(cfg: Config, x: Sys, order: seq<Sid>, r: Sid)
    requires Inv(cfg, x) && r in x.fed.rows && x.fed.rows[r].revokedAt.Some?
    ensures var g := RevokeEach(x.fed, order, x.now).0; r in g.rows && g.rows[r] == x.fed.rows[r]
  {
    if order != [] {
      var front, last := order[..|order| - 1], order[|order| - 1];
      RevokedRowStays(cfg, x, front, r);
      RevokeEachKeepsInv(cfg, x, front);
      var mid := x.(fed := RevokeEach(x.fed, front, x.now).0);
      RevokeOutcome(cfg, mid, last);
      if r != last { RevokeLeavesOthers(mid.fed, last, x.now, r); }
    }
  }

  lemma {:induction false} GoneUntilTouched(cfg: Config, start: int, ops: seq<Op>, more: seq<Op>, sid: Sid)
    requires cfg.Valid() && Gone(Run(cfg, start, ops), sid)
    ensures var y := Run(cfg, start, ops + more);
            && sid in y.fed.rows && y.fed.rows[sid].revokedAt.Some?
            && y.fed.rows[sid].absoluteExpiresAt == Run(cfg, start, ops).fed.rows[sid].absoluteExpiresAt
            && ((forall m :: !TouchesAt(cfg, start, ops, more, sid, m)) ==> Gone(y, sid))
            && ((forall m :: !TouchesBeforeExpiryAt(cfg, start, ops, more, sid, m)) ==>
                  Gone(y, sid) || y.fed.rows[sid].absoluteExpiresAt <= y.now)
  {
    if more == [] {
      assert ops + more == ops;
    } else {
      var front, op := more[..|more| - 1], more[|more| - 1];
      GoneUntilTouched(cfg, start, ops, front, sid);
      assert ops + more == ops + front + [op];
      RunMore(cfg, start, ops + front, op);
      RunKeepsInv(cfg, start, ops + front);
      var x := Run(cfg, start, ops + front);
      StepKeepsGone(cfg, x, op, sid);
      forall m | 0 <= m < |front|
        ensures TouchesAt(cfg, start, ops, front, sid, m) == TouchesAt(cfg, start, ops, more, sid, m)
        ensures TouchesBeforeExpiryAt(cfg, start, ops, front, sid, m)
                == TouchesBeforeExpiryAt(cfg, start, ops, more, sid, m)
      {
        assert front[..m] == more[..m];
      }
      assert more[..|more| - 1] == front;
      assert TouchesAt(cfg, start, ops, more, sid, |more| - 1) == Touches(x, op, sid);
      assert TouchesBeforeExpiryAt(cfg, start, ops, more, sid, |more| - 1)
          == (Touches(x, op, sid) && x.now < op.s.absoluteExpiresAt);
      assert Touches(x, op, sid) ==> Genuine(x.fed, op.s);
      var y := Run(cfg, start, ops + more);
      if forall m :: !TouchesBeforeExpiryAt(cfg, start, ops, more, sid, m) {
        assert !(Touches(x, op, sid) && x.now < op.s.absoluteExpiresAt);
        assert Gone(x, sid) || x.fed.rows[sid].absoluteExpiresAt <= x.now;
      }
    }
  }

  /** A touch of a held session brings its key back, whatever happened to it: a revoke would return it again, and before
      absolute expiry get answers it. */
  lemma TouchRevives(cfg: Config, x: Sys, s: Session)
    requires cfg.Valid() && Inv(cfg, x) && s in x.held
    ensures var y := Step(cfg, x, TouchOp(s));
            && Revoke(y.fed, s.sid, y.now).1.Some?
            && (y.now < s.absoluteExpiresAt ==> Answers(y.fed, s.sid, y.now))
  {
    assert 1 <= TouchTtl(cfg, s, x.now);
    TouchKeepsInv(cfg, x, s);
    RevokeOutcome(cfg, Step(cfg, x, TouchOp(s)), s.sid);
  }

  lemma PrefixQuiet(cfg: Config, start: int, ops: seq<Op>, more: seq<Op>, sid: Sid, n: nat)
    requires n <= |more|
    ensures forall m :: 0 <= m < n ==>
              && TouchesAt(cfg, start, ops, more[..n], sid, m) == TouchesAt(cfg, start, ops, more, sid, m)
              && TouchesBeforeExpiryAt(cfg, start, ops, more[..n], sid, m)
                 == TouchesBeforeExpiryAt(cfg, start, ops, more, sid, m)
  {
    forall m | 0 <= m < n
      ensures TouchesAt(cfg, start, ops, more[..n], sid, m) == TouchesAt(cfg, start, ops, more, sid, m)
      ensures TouchesBeforeExpiryAt(cfg, start, ops, more[..n], sid, m)
              == TouchesBeforeExpiryAt(cfg, start, ops, more, sid, m)
    {
      assert more[..n][..m] == more[..m];
    }
  }

  lemma TouchedState(cfg: Config, start: int, ops: seq<Op>, more: seq<Op>, sid: Sid, m: int)
    requires cfg.Valid() && TouchesAt(cfg, start, ops, more, sid, m)
    ensures ReturnedAt(cfg, start, ops, more, sid, m + 1)
    ensures TouchesBeforeExpiryAt(cfg, start, ops, more, sid, m) ==> ObtainableAt(cfg, start, ops, more, sid, m + 1)
  {
    assert ops + more[..m + 1] == ops + more[..m] + [more[m]];
    RunMore(cfg, start, ops + more[..m], more[m]);
    RunKeepsInv(cfg, start, ops + more[..m]);
    TouchRevives(cfg, Run(cfg, start, ops + more[..m]), more[m].s);
  }

  /** From when a session is revoked and its key gone: at some later moment revoke would return it again if and only if
      some request that held it touched it meanwhile. */
  lemma ReturnedAgainExactlyWhen(cfg: Config, start: int, ops: seq<Op>, more: seq<Op>, sid: Sid)
    requires cfg.Valid() && Gone(Run(cfg, start, ops), sid)
    ensures (exists m :: ReturnedAt(cfg, start, ops, more, sid, m)) <==>
        (exists m :: TouchesAt(cfg, start, ops, more, sid, m))
  {
    if m :| TouchesAt(cfg, start, ops, more, sid, m) {
      TouchedState(cfg, start, ops, more, sid, m);
    } else {
      forall n ensures !ReturnedAt(cfg, start, ops, more, sid, n) {
        if 0 <= n <= |more| {
          PrefixQuiet(cfg, start, ops, more, sid, n);
          GoneUntilTouched(cfg, start, ops, more[..n], sid);
          RunKeepsInv(cfg, start, ops + more[..n]);
          RevokeOutcome(cfg, Run(cfg, start, ops + more[..n]), sid);
        }
      }
    }
  }

  /** At some later moment get answers it again if and only if such a touch came before its absolute expiry. */
  lemma ObtainedAgainExactlyWhen(cfg: Config, start: int, ops: seq<Op>, more: seq<Op>, sid: Sid)
    requires cfg.Valid() && Gone(Run(cfg, start, ops), sid)
    ensures (exists m :: ObtainableAt(cfg, start, ops, more, sid, m)) <==>
        (exists m :: TouchesBeforeExpiryAt(cfg, start, ops, more, sid, m))
  {
    if m :| TouchesBeforeExpiryAt(cfg, start, ops, more, sid, m) {
      TouchedState(cfg, start, ops, more, sid, m);
    } else {
      forall n ensures !ObtainableAt(cfg, start, ops, more, sid, n) {
        if 0 <= n <= |more| {
          PrefixQuiet(cfg, start, ops, more, sid, n);
          GoneUntilTouched(cfg, start, ops, more[..n], sid);
          RunKeepsInv(cfg, start, ops + more[..n]);
        }
      }
    }
  }

  // ---- results over a run ----

  lemma StepLogs(cfg: Config, x: Sys, op: Op, r: Revoked)
    requires Inv(cfg, x)
    ensures var y := Step(cfg, x, op);
            x.log <= y.log && (r in y.log[|x.log|..] ==> Due(x.fed, x.now, r))
  {
    match op
    case RevokeOp(sid) => RevokeOutcome(cfg, x, sid);
    case RevokeAllOp(itsId, order) =>
      if Enumerates(order, UserSids(x.fed, itsId, x.now)) {
        RevokeEachFacts(cfg, x, order);
        var rs := RevokeEach(x.fed, order, x.now).1;
        assert (x.log + rs)[|x.log|..] == rs;
      }
    case _ =>
  }

  /** The log has a result for the sid. */
  ghost predicate Occurs(log: seq<Revoked>, sid: Sid) {
    exists r :: r in log && r.sid == sid
  }

  /** A step adds a result only for a sid that is due. */
  lemma LogStep(cfg: Config, z: Sys, op: Op, k: nat, sid: Sid)
    requires Inv(cfg, z) && k <= |z.log|
    ensures var y := Step(cfg, z, op);
            z.log <= y.log && (Occurs(y.log[k..], sid) && !Occurs(z.log[k..], sid) ==> !Gone(z, sid))
  {
    hide Inv, Step;
    var y := Step(cfg, z, op);
    StepLogs(cfg, z, op, Revoked("", "", {}));
    if Occurs(y.log[k..], sid) && !Occurs(z.log[k..], sid) {
      var r :| r in y.log[k..] && r.sid == sid;
      assert y.log[k..] == z.log[k..] + y.log[|z.log|..];
      StepLogs(cfg, z, op, r);
    }
  }

  /** Revocation is final but for late touches: after a session is gone neither revoke nor revokeAllForUser returns it,
      whatever is called, unless a request that held the session touched it in between. */
  lemma {:induction false} RevocationIsFinal(cfg: Config, start: int, ops: seq<Op>, more: seq<Op>, sid: Sid)
    requires cfg.Valid() && Gone(Run(cfg, start, ops), sid)
    ensures var x, y := Run(cfg, start, ops), Run(cfg, start, ops + more);
            x.log <= y.log && (Occurs(y.log[|x.log|..], sid) ==> exists m :: TouchesAt(cfg, start, ops, more, sid, m))
  {
    if more == [] {
      assert ops + more == ops;
    } else {
      var front, op := more[..|more| - 1], more[|more| - 1];
      RevocationIsFinal(cfg, start, ops, front, sid);
      assert ops + more == ops + front + [op];
      RunMore(cfg, start, ops + front, op);
      var x, z := Run(cfg, start, ops), Run(cfg, start, ops + front);
      RunKeepsInv(cfg, start, ops + front);
      LogStep(cfg, z, op, |x.log|, sid);
      PrefixQuiet(cfg, start, ops, more, sid, |front|);
      assert more[..|front|] == front;
      GoneUntilTouched(cfg, start, ops, front, sid);
    }
  }

  // ---- the whole log ----

  ghost predicate AtMostOnce(log: seq<Revoked>, sid: Sid) {
    forall i, j :: 0 <= i < j < |log| && log[i].sid == sid ==> log[j].sid != sid
  }

  /** As long as the sid is not touched once revoked: revoked means gone, and the log has it at most once, only when
      revoked. */
  ghost predicate OnceOk(x: Sys, sid: Sid) {
    sid !in x.revived ==>
      (IsRevoked(x.fed, sid) ==> Gone(x, sid)) && AtMostOnce(x.log, sid)
        && (Occurs(x.log, sid) ==> IsRevoked(x.fed, sid))
  }

  /** The results of one step: each sid once, each due before, and revoked with its key gone afterwards. */
  lemma NewResults(cfg: Config, x: Sys, op: Op)
    requires Inv(cfg, x)
    ensures var y := Step(cfg, x, op);
            && x.log <= y.log && OneEach(y.log[|x.log|..])
            && forall r :: r in y.log[|x.log|..] ==> Due(x.fed, x.now, r) && Gone(y, r.sid)
  {
    match op
    case RevokeOp(sid) => RevokeOutcome(cfg, x, sid);
    case RevokeAllOp(itsId, order) =>
      if Enumerates(order, UserSids(x.fed, itsId, x.now)) {
        RevokeEachFacts(cfg, x, order);
        RevokeEachKeepsInv(cfg, x, order);
        var rs := RevokeEach(x.fed, order, x.now).1;
        assert (x.log + rs)[|x.log|..] == rs;
      }
    case _ =>
  }

  /** A step makes a session revoked only by revoking it, and then it is gone. */
  lemma NewlyRevokedIsGone(cfg: Config, x: Sys, op: Op, sid: Sid)
    requires Inv(cfg, x) && !IsRevoked(x.fed, sid) && IsRevoked(Step(cfg, x, op).fed, sid)
    ensures Gone(Step(cfg, x, op), sid)
  {
    match op
    case RevokeOp(s) =>
      RevokeOutcome(cfg, x, s);
      if s != sid { RevokeLeavesOthers(x.fed, s, x.now, sid); }
    case RevokeAllOp(itsId, order) =>
      if Enumerates(order, UserSids(x.fed, itsId, x.now)) {
        RevokeEachFacts(cfg, x, order);
        assert sid !in order ==> Untouched(x.fed, RevokeEach(x.fed, order, x.now).0, x.now, sid);
      }
    case _ =>
  }

  lemma RevivedOnlyByTouch(cfg: Config, x: Sys, op: Op, sid: Sid)
    ensures var y := Step(cfg, x, op);
            && x.revived <= y.revived
            && (Touches(x, op, sid) && IsRevoked(x.fed, sid) ==> sid in y.revived)
            && (sid in y.revived && sid !in x.revived ==> Touches(x, op, sid) && IsRevoked(x.fed, sid))
  {
  }

  lemma StepKeepsGoneOrNot(cfg: Config, x: Sys, op: Op, sid: Sid)
    requires Inv(cfg, x) && OnceOk(x, sid) && sid !in Step(cfg, x, op).revived
    ensures var y := Step(cfg, x, op);
            (IsRevoked(y.fed, sid) ==> Gone(y, sid)) && (IsRevoked(x.fed, sid) ==> IsRevoked(y.fed, sid))
  {
    RevivedOnlyByTouch(cfg, x, op, sid);
    if IsRevoked(x.fed, sid) {
      StepKeepsGone(cfg, x, op, sid);
    } else if IsRevoked(Step(cfg, x, op).fed, sid) {
      NewlyRevokedIsGone(cfg, x, op, sid);
    }
  }

  /** Appending results that have the sid at most once, and not at all if the log already has it. */
  lemma OnceAfter(log: seq<Revoked>, rs: seq<Revoked>, sid: Sid)
    requires AtMostOnce(log, sid) && OneEach(rs) && (Occurs(log, sid) ==> !Occurs(rs, sid))
    ensures AtMostOnce(log + rs, sid)
  {
    var all := log + rs;
    forall i, j | 0 <= i < j < |all| && all[i].sid == sid ensures all[j].sid != sid {
      if i < |log| {
        assert log[i] in log && Occurs(log, sid);
        if |log| <= j { assert rs[j - |log|] in rs; }
      }
    }
  }

  lemma StepKeepsOnce(cfg: Config, x: Sys, op: Op, sid: Sid)
    requires Inv(cfg, x) && OnceOk(x, sid)
    ensures OnceOk(Step(cfg, x, op), sid)
  {
    var y := Step(cfg, x, op);
    RevivedOnlyByTouch(cfg, x, op, sid);
    if sid !in y.revived {
      StepKeepsGoneOrNot(cfg, x, op, sid);
      NewResults(cfg, x, op);
      var rs := y.log[|x.log|..];
      assert y.log == x.log + rs;
      assert Occurs(x.log, sid) ==> !Occurs(rs, sid);
      OnceAfter(x.log, rs, sid);
      if Occurs(y.log, sid) && !Occurs(x.log, sid) {
        var r :| r in y.log && r.sid == sid;
        assert r in rs;
      }
    }
  }

  lemma {:induction false} RunKeepsOnce(cfg: Config, start: int, ops: seq<Op>, sid: Sid)
    requires cfg.Valid()
    ensures OnceOk(Run(cfg, start, ops), sid)
  {
    if ops != [] {
      var front := ops[..|ops| - 1];
      RunKeepsOnce(cfg, start, front, sid);
      RunKeepsInv(cfg, start, front);
      StepKeepsOnce(cfg, Run(cfg, start, front), ops[|ops| - 1], sid);
    }
  }

  /** Over every run, revoke and revokeAllForUser together return a sid at most once, and once they have it is gone,
      unless a request that held the session touched it after it had been revoked. */
  lemma ReturnedOnce(cfg: Config, start: int, ops: seq<Op>, sid: Sid)
    requires cfg.Valid() && sid !in Run(cfg, start, ops).revived
    ensures var x := Run(cfg, start, ops); AtMostOnce(x.log, sid) && (Occurs(x.log, sid) ==> Gone(x, sid))
  {
    RunKeepsOnce(cfg, start, ops, sid);
  }

  /** The sid is revoked and a revoke would return it all the same. */
  ghost predicate WouldRepeatAt(cfg: Config, start: int, ops: seq<Op>, sid: Sid, m: int) {
    && 0 <= m <= |ops|
    && var x := Run(cfg, start, ops[..m]);
       IsRevoked(x.fed, sid) && Revoke(x.fed, sid, x.now).1.Some?
  }

  lemma {:induction false} RevivedRepeats(cfg: Config, start: int, ops: seq<Op>, sid: Sid) returns (m: nat)
    requires cfg.Valid() && sid in Run(cfg, start, ops).revived
    ensures WouldRepeatAt(cfg, start, ops, sid, m)
  {
    var front, op := ops[..|ops| - 1], ops[|ops| - 1];
    var x := Run(cfg, start, front);
    if sid in x.revived {
      m := RevivedRepeats(cfg, start, front, sid);
      assert front[..m] == ops[..m];
    } else {
      m := |ops|;
      assert ops[..m] == ops;
      RevivedOnlyByTouch(cfg, x, op, sid);
      RunKeepsInv(cfg, start, front);
      TouchRevives(cfg, x, op.s);
      StepKeepsGone(cfg, x, op, sid);
    }
  }

  lemma {:induction false} RevivedStays(cfg: Config, start: int, ops: seq<Op>, m: nat)
    requires m <= |ops|
    ensures Run(cfg, start, ops[..m]).revived <= Run(cfg, start, ops).revived
  {
    if m == |ops| {
      assert ops[..m] == ops;
    } else {
      assert ops[..|ops| - 1][..m] == ops[..m];
      RevivedStays(cfg, start, ops[..|ops| - 1], m);
      RevivedOnlyByTouch(cfg, Run(cfg, start, ops[..|ops| - 1]), ops[|ops| - 1], "");
    }
  }

  /** And exactly then: some moment of the run is one at which a revoked sid would be returned if and only if a request
      that held the session touched it while it was revoked. */
  lemma RepeatsExactlyWhen(cfg: Config, start: int, ops: seq<Op>, sid: Sid)
    requires cfg.Valid()
    ensures (exists m :: WouldRepeatAt(cfg, start, ops, sid, m)) <==> sid in Run(cfg, start, ops).revived
  {
    if sid in Run(cfg, start, ops).revived {
      var m := RevivedRepeats(cfg, start, ops, sid);
    } else {
      forall m ensures !WouldRepeatAt(cfg, start, ops, sid, m) {
        if 0 <= m <= |ops| {
          RevivedStays(cfg, start, ops, m);
          RunKeepsOnce(cfg, start, ops[..m], sid);
          RunKeepsInv(cfg, start, ops[..m]);
          RevokeOutcome(cfg, Run(cfg, start, ops[..m]), sid);
        }
      }
    }
  }

  /** Whatever revoke or revokeAllForUser has just returned is gone. */
  lemma ReturnedIsGone(cfg: Config, start: int, ops: seq<Op>, op: Op, r: Revoked)
    requires cfg.Valid()
    ensures var x, y := Run(cfg, start, ops), Run(cfg, start, ops + [op]);
            x.log <= y.log && (r in y.log[|x.log|..] ==> Gone(y, r.sid))
  {
    RunMore(cfg, start, ops, op);
    RunKeepsInv(cfg, start, ops);
    NewResults(cfg, Run(cfg, start, ops), op);
  }

  /** revoke leaves the session gone, whether it returns a result or null. */
  lemma RevokeMakesGone(cfg: Config, start: int, ops: seq<Op>, sid: Sid)
    requires cfg.Valid()
    ensures var x, y := Run(cfg, start, ops), Run(cfg, start, ops + [RevokeOp(sid)]);
            sid in x.fed.rows ==> Gone(y, sid)
  {
    RunMore(cfg, start, ops, RevokeOp(sid));
    RunKeepsInv(cfg, start, ops);
    RevokeOutcome(cfg, Run(cfg, start, ops), sid);
  }

  // ---- revokeAllForUser ----

  /** The loop visits exactly the user's unrevoked, unexpired sessions, and those of the user's set that have
      expired. */
  lemma UserSidsAreUnrevoked(cfg: Config, x: Sys, itsId: ItsId, sid: Sid)
    requires Inv(cfg, x)
    ensures sid in UserSids(x.fed, itsId, x.now) ==>
        sid in x.fed.rows && x.fed.rows[sid].itsId == itsId && x.fed.rows[sid].revokedAt.None?
    ensures sid in x.fed.rows && x.fed.rows[sid].itsId == itsId
            && x.fed.rows[sid].revokedAt.None? && x.now < x.fed.rows[sid].absoluteExpiresAt ==>
              sid in UserSids(x.fed, itsId, x.now) && sid in SMembers(x.fed.userSessions, itsId, x.now)
  {
    if sid in x.fed.rows { assert Indexed(cfg, x.fed, x.now, sid); }
  }

  lemma RevokeAllFacts(cfg: Config, x: Sys, itsId: ItsId, order: seq<Sid>, sid: Sid)
    requires Inv(cfg, x) && Enumerates(order, UserSids(x.fed, itsId, x.now)) && sid in x.fed.rows
    ensures var g := RevokeEach(x.fed, order, x.now).0; var row := x.fed.rows[sid];
            Lookup(g, sid, x.now) == if row.itsId == itsId && row.revokedAt.None? then None
              else Lookup(x.fed, sid, x.now)
  {
    RevokeEachFacts(cfg, x, order);
    UserSidsAreUnrevoked(cfg, x, itsId, sid);
    var g := RevokeEach(x.fed, order, x.now).0;
    assert sid !in order ==> Untouched(x.fed, g, x.now, sid);
  }

  lemma UserSidsAllDue(cfg: Config, x: Sys, itsId: ItsId, order: seq<Sid>)
    requires Inv(cfg, x) && Enumerates(order, UserSids(x.fed, itsId, x.now))
    ensures forall i :: 0 <= i < |order| ==>
              order[i] in x.fed.rows && x.fed.rows[order[i]].revokedAt.None? && x.fed.rows[order[i]].itsId == itsId
    ensures RevokeEach(x.fed, order, x.now).1 == DueResults(x.fed, x.now, order)
  {
    forall i | 0 <= i < |order|
      ensures order[i] in x.fed.rows && x.fed.rows[order[i]].revokedAt.None? && x.fed.rows[order[i]].itsId == itsId
    {
      assert order[i] in order;
      UserSidsAreUnrevoked(cfg, x, itsId, order[i]);
    }
    AllDueInOrder(cfg, x, order);
  }

  /** What revokeAllForUser leaves: no session of the user can be obtained except those that had been revoked before and
      touched back to life, which it does not visit; other users' sessions read as before. The call returns one result
      for each sid it visits, in the order of its visits, with what clients(sid) was. */
  lemma RevokeAllForUserLeavesExactly(cfg: Config, start: int, ops: seq<Op>, itsId: ItsId, order: seq<Sid>, sid: Sid)
    requires cfg.Valid()
    requires var x := Run(cfg, start, ops); Enumerates(order, UserSids(x.fed, itsId, x.now)) && sid in x.fed.rows
    ensures var x, y := Run(cfg, start, ops), Run(cfg, start, ops + [RevokeAllOp(itsId, order)]);
            var row := x.fed.rows[sid];
            && Lookup(y.fed, sid, y.now)
               == (if row.itsId == itsId && row.revokedAt.None? then None else Lookup(x.fed, sid, x.now))
            && |y.log| == |x.log| + |order| && x.log <= y.log
            && forall i :: 0 <= i < |order| ==>
                 y.log[|x.log| + i] == Revoked(order[i], itsId, Clients(x.fed, order[i], x.now))
  {
    hide Run, Inv, Enumerates, UserSids, Clients;
    var x := Run(cfg, start, ops);
    RunKeepsInv(cfg, start, ops);
    RunMore(cfg, start, ops, RevokeAllOp(itsId, order));
    RevokeAllFacts(cfg, x, itsId, order, sid);
    UserSidsAllDue(cfg, x, itsId, order);
    assert Run(cfg, start, ops + [RevokeAllOp(itsId, order)]).log == x.log + DueResults(x.fed, x.now, order);
  }

  /** Hence the user is signed out everywhere if and only if none of the user's revoked sessions had been touched
      back. */
  lemma RevokeAllForUserEndsEverySession(cfg: Config, start: int, ops: seq<Op>, itsId: ItsId, order: seq<Sid>)
    requires cfg.Valid()
    requires var x := Run(cfg, start, ops); Enumerates(order, UserSids(x.fed, itsId, x.now))
    ensures var x, y := Run(cfg, start, ops), Run(cfg, start, ops + [RevokeAllOp(itsId, order)]);
            (forall sid :: sid in x.fed.rows && x.fed.rows[sid].itsId == itsId ==> !Answers(y.fed, sid, y.now)) <==>
            (forall sid :: sid in x.fed.rows && x.fed.rows[sid].itsId == itsId && x.fed.rows[sid].revokedAt.Some? ==>
              !Answers(x.fed, sid, x.now))
  {
    var x, y := Run(cfg, start, ops), Run(cfg, start, ops + [RevokeAllOp(itsId, order)]);
    forall sid | sid in x.fed.rows && x.fed.rows[sid].itsId == itsId
      ensures Answers(y.fed, sid, y.now) <==> x.fed.rows[sid].revokedAt.Some? && Answers(x.fed, sid, x.now)
    {
      RevokeAllForUserLeavesExactly(cfg, start, ops, itsId, order, sid);
      RunMore(cfg, start, ops, RevokeAllOp(itsId, order));
    }
  }

  // ---- it does come back ----

  /** A request holds a session while it is revoked, and touches it. */
  function LateTouch(cfg: Config): seq<Op> {
    [CreateOp("u", "sid_1", "h")] + [RevokeOp("sid_1")] + [TouchOp(NewSession(cfg, "u", "sid_1", "h", 0))]
  }

  /** Then the session is obtainable again, a second revoke would return it, and revokeAllForUser does not visit it. */
  lemma LateTouchRevives(cfg: Config)
    requires cfg.Valid()
    ensures var x := Run(cfg, 0, LateTouch(cfg));
            && "sid_1" in x.fed.rows && x.fed.rows["sid_1"].revokedAt.Some?
            && Answers(x.fed, "sid_1", x.now) && Revoke(x.fed, "sid_1", x.now).1.Some?
            && "sid_1" !in UserSids(x.fed, "u", x.now)
  {
    var s := NewSession(cfg, "u", "sid_1", "h", 0);
    var a := [CreateOp("u", "sid_1", "h")];
    var b := a + [RevokeOp("sid_1")];
    RunMore(cfg, 0, [], CreateOp("u", "sid_1", "h"));
    assert [] + a == a;
    RunMore(cfg, 0, b, TouchOp(s));
    RevokeMakesGone(cfg, 0, a, "sid_1");
    RunMore(cfg, 0, a, RevokeOp("sid_1"));
    RunKeepsInv(cfg, 0, b);
    RunKeepsInv(cfg, 0, LateTouch(cfg));
    TouchRevives(cfg, Run(cfg, 0, b), s);
    StepKeepsGone(cfg, Run(cfg, 0, b), TouchOp(s), "sid_1");
    UserSidsAreUnrevoked(cfg, Run(cfg, 0, LateTouch(cfg)), "u", "sid_1");
  }
}
