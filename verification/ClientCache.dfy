/** The client set of a session against its table: exactly when clients(sid) is every participant. */
module ClientCache {
  import opened Wrappers
  import opened Redis
  import opened FederationSessions
  import opened SessionRuns

  predicate Agrees(x: Sys, sid: Sid) {
    Clients(x.fed, sid, x.now) == Participants(x.fed, sid)
  }

  ghost predicate AgreesAt(cfg: Config, start: int, ops: seq<Op>, sid: Sid, m: int)
    requires 0 <= m <= |ops|
  {
    Agrees(Run(cfg, start, ops[..m]), sid)
  }

  lemma {:induction false} HiddenStays(cfg: Config, start: int, ops: seq<Op>, m: nat)
    requires m <= |ops|
    ensures Run(cfg, start, ops[..m]).hidden <= Run(cfg, start, ops).hidden
    ensures Run(cfg, start, ops[..m]).stale <= Run(cfg, start, ops).stale
  {
    if m == |ops| {
      assert ops[..m] == ops;
    } else {
      assert ops[..|ops| - 1][..m] == ops[..m];
      HiddenStays(cfg, start, ops[..|ops| - 1], m);
    }
  }

  /** An addClient that is not safe leaves a set with one member beside older participants. */
  lemma UnsafeAddDisagrees(cfg: Config, x: Sys, s: Session, client: ClientId)
    requires s in x.held && !SafeToAdd(x.fed, s.sid, client, x.now)
    ensures !Agrees(Step(cfg, x, AddClientOp(s, client)), s.sid)
  {
    var y := Step(cfg, x, AddClientOp(s, client));
    assert client in SMembers(y.fed.sessionClients, s.sid, x.now);
    var other :| other in Participants(x.fed, s.sid) && other != client;
    assert other in Participants(y.fed, s.sid) && other !in Clients(y.fed, s.sid, y.now);
  }

  lemma {:induction false} HiddenDisagreed(cfg: Config, start: int, ops: seq<Op>, sid: Sid) returns (m: nat)
    requires sid in Run(cfg, start, ops).hidden
    ensures m <= |ops| && !AgreesAt(cfg, start, ops, sid, m)
  {
    var front := ops[..|ops| - 1];
    if sid in Run(cfg, start, front).hidden {
      m := HiddenDisagreed(cfg, start, front, sid);
      assert front[..m] == ops[..m];
    } else {
      m := |ops|;
      assert ops[..m] == ops;
      var op := ops[|ops| - 1];
      assert op.AddClientOp?;
      UnsafeAddDisagrees(cfg, Run(cfg, start, front), op.s, op.client);
    }
  }

  /** clients(sid) is the table throughout a run if and only if every addClient of the sid found the client set live or
      no other participant on record. Touches and revocations never break it. */
  lemma AgreesThroughoutExactlyWhen(cfg: Config, start: int, ops: seq<Op>, sid: Sid)
    requires cfg.Valid()
    ensures sid !in Run(cfg, start, ops).hidden <==> forall m :: 0 <= m <= |ops| ==> AgreesAt(cfg, start, ops, sid, m)
  {
    if sid in Run(cfg, start, ops).hidden {
      var m := HiddenDisagreed(cfg, start, ops, sid);
    } else {
      forall m | 0 <= m <= |ops| ensures AgreesAt(cfg, start, ops, sid, m) {
        HiddenStays(cfg, start, ops, m);
        RunKeepsInv(cfg, start, ops[..m]);
      }
    }
  }

  // ---- sessions that are used only while get would answer ----

  /** Up to when the client set of a session must live. With an idle lifetime of one second the set always outlives the
      session; otherwise the rounding down can cost up to 999 ms before absolute expiry. */
  function Horizon(cfg: Config, deadline: int, absolute: int): int {
    if cfg.idleTtl == 1 then deadline else Min(deadline, absolute - 999)
  }

  /** Before that no client was hidden, and a live session with participants has its set. */
  ghost predicate Kept(cfg: Config, x: Sys, sid: Sid)
    requires sid in x.fed.rows
  {
    var abs := x.fed.rows[sid].absoluteExpiresAt;
    x.now < abs - 999 || cfg.idleTtl == 1 ==>
      && sid !in x.hidden
      && (Live(x.fed.sessions, sid, x.now) && Participants(x.fed, sid) != {} ==>
            Live(x.fed.sessionClients, sid, x.now)
              && Horizon(cfg, x.fed.sessions[sid].deadline, abs) <= x.fed.sessionClients[sid].deadline)
  }

  ghost predicate AllKept(cfg: Config, x: Sys) {
    && x.hidden <= x.fed.rows.Keys
    && forall sid :: sid in x.fed.rows && sid !in x.stale ==> Kept(cfg, x, sid)
  }

  lemma CreateKeepsKept(cfg: Config, x: Sys, itsId: ItsId, sid: Sid, handle: string)
    requires cfg.Valid() && Inv(cfg, x) && AllKept(cfg, x)
    ensures AllKept(cfg, Step(cfg, x, CreateOp(itsId, sid, handle)))
  {
    var y := Step(cfg, x, CreateOp(itsId, sid, handle));
    forall r | r in y.fed.rows && r !in y.stale ensures Kept(cfg, y, r) {
      assert r in x.fed.rows ==> Kept(cfg, x, r);
    }
  }

  /** touch gives the session and its client set the same deadline, if the set still lives. */
  lemma TouchKeepsKept(cfg: Config, x: Sys, s: Session)
    requires cfg.Valid() && Inv(cfg, x) && AllKept(cfg, x)
    ensures AllKept(cfg, Step(cfg, x, TouchOp(s)))
  {
    var y := Step(cfg, x, TouchOp(s));
    forall r | r in y.fed.rows && r !in y.stale ensures Kept(cfg, y, r) {
      assert Kept(cfg, x, r);
    }
  }

  /** The deadline addClient sets comes after the horizon of any session: within 999 ms before absolute expiry at the
      earliest, and never within less than a second. */
  lemma ClientDeadline(cfg: Config, s: Session, now: int)
    ensures s.absoluteExpiresAt - 999 <= now + ClientTtl(s, now) * 1000 && now + 1000 <= now + ClientTtl(s, now) * 1000
    ensures now < s.absoluteExpiresAt - 999 ==> now + ClientTtl(s, now) * 1000 <= s.absoluteExpiresAt
  {
  }

  lemma AddClientKeepsKept(cfg: Config, x: Sys, s: Session, client: ClientId)
    requires cfg.Valid() && Inv(cfg, x) && AllKept(cfg, x)
    ensures AllKept(cfg, Step(cfg, x, AddClientOp(s, client)))
  {
    var y := Step(cfg, x, AddClientOp(s, client));
    if s in x.held { ClientDeadline(cfg, s, x.now); }
    forall r | r in y.fed.rows && r !in y.stale ensures Kept(cfg, y, r) {
      assert Kept(cfg, x, r);
    }
  }

  lemma UntouchedKeepsKept(cfg: Config, x: Sys, y: Sys, r: Sid)
    requires y.now == x.now && y.stale == x.stale && y.hidden == x.hidden && r in x.fed.rows && r in y.fed.rows
    requires Untouched(x.fed, y.fed, x.now, r) && Kept(cfg, x, r)
    ensures Kept(cfg, y, r)
  {
  }

  lemma RevokesKeepKept(cfg: Config, x: Sys, order: seq<Sid>)
    requires Inv(cfg, x) && AllKept(cfg, x) && Distinct(order)
    ensures AllKept(cfg, x.(fed := RevokeEach(x.fed, order, x.now).0))
  {
    var y := x.(fed := RevokeEach(x.fed, order, x.now).0);
    RevokeEachFacts(cfg, x, order);
    RevokeEachKeepsInv(cfg, x, order);
    forall r | r in y.fed.rows && r !in y.stale ensures Kept(cfg, y, r) {
      if r in order {
        RevokedRow(cfg, x, order, r);
        assert Kept(cfg, x, r);
      } else {
        UntouchedKeepsKept(cfg, x, y, r);
      }
    }
  }

  lemma {:induction false} RevokedRow(cfg: Config, x: Sys, order: seq<Sid>, r: Sid)
    requires Inv(cfg, x) && r in x.fed.rows
    ensures var g := RevokeEach(x.fed, order, x.now).0;
            r in g.rows && g.rows[r].absoluteExpiresAt == x.fed.rows[r].absoluteExpiresAt
              && g.rows[r].itsId == x.fed.rows[r].itsId
            && (x.fed.rows[r].revokedAt.Some? ==> g.rows[r].revokedAt.Some?)
  {
    if order != [] {
      var front, last := order[..|order| - 1], order[|order| - 1];
      RevokedRow(cfg, x, front, r);
      RevokeEachKeepsInv(cfg, x, front);
      var mid := x.(fed := RevokeEach(x.fed, front, x.now).0);
      RevokeOutcome(cfg, mid, last);
      if r != last { RevokeLeavesOthers(mid.fed, last, x.now, r); }
    }
  }

  lemma RevokeAsLoop(f: Fed, sid: Sid, now: int)
    ensures RevokeEach(f, [sid], now)
        == (Revoke(f, sid, now).0, if Revoke(f, sid, now).1.Some? then [Revoke(f, sid, now).1.value] else [])
  {
    assert [sid][..0] == [];
    var (g, r) := Revoke(f, sid, now);
    var last := if r.Some? then [r.value] else [];
    var nothing: seq<Revoked> := [];
    assert RevokeEach(f, [], now) == (f, nothing);
    assert nothing + last == last;
  }

  lemma QuietKeepsKept(cfg: Config, x: Sys, y: Sys)
    requires Inv(cfg, x) && AllKept(cfg, x) && y.fed == x.fed && x.now <= y.now && y.stale == x.stale
    requires y.hidden == x.hidden
    ensures AllKept(cfg, y)
  {
    forall r | r in y.fed.rows && r !in y.stale ensures Kept(cfg, y, r) { assert Kept(cfg, x, r); }
  }

  lemma StepKeepsKept(cfg: Config, x: Sys, op: Op)
    requires cfg.Valid() && Inv(cfg, x) && AllKept(cfg, x)
    ensures AllKept(cfg, Step(cfg, x, op))
  {
    match op
    case Tick(ms) => QuietKeepsKept(cfg, x, Step(cfg, x, op));
    case CreateOp(itsId, sid, handle) => CreateKeepsKept(cfg, x, itsId, sid, handle);
    case GetOp(sid) => QuietKeepsKept(cfg, x, Step(cfg, x, op));
    case TouchOp(s) => TouchKeepsKept(cfg, x, s);
    case AddClientOp(s, client) => AddClientKeepsKept(cfg, x, s, client);
    case RevokeOp(sid) =>
      RevokeAsLoop(x.fed, sid, x.now);
      RevokesKeepKept(cfg, x, [sid]);
    case RevokeAllOp(itsId, order) =>
      if Enumerates(order, UserSids(x.fed, itsId, x.now)) { RevokesKeepKept(cfg, x, order); }
  }

  lemma {:induction false} RunKeepsKept(cfg: Config, start: int, ops: seq<Op>)
    requires cfg.Valid()
    ensures AllKept(cfg, Run(cfg, start, ops))
  {
    if ops != [] {
      var front := ops[..|ops| - 1];
      RunKeepsKept(cfg, start, front);
      RunKeepsInv(cfg, start, front);
      StepKeepsKept(cfg, Run(cfg, start, front), ops[|ops| - 1]);
    }
  }

  /** Cache agrees with table: if the sid was only ever touched or given a client while get would have answered, then at
      least 1000 ms before absolute expiry, revoked or not, clients(sid) is exactly the participant rows. With an idle
      lifetime of one second it always is. */
  lemma CacheAgreesWithTable(cfg: Config, start: int, ops: seq<Op>, sid: Sid)
    requires cfg.Valid()
    ensures var x := Run(cfg, start, ops);
            sid in x.fed.rows && sid !in x.stale
              && (x.now <= x.fed.rows[sid].absoluteExpiresAt - 1000 || cfg.idleTtl == 1) ==>
              sid !in x.hidden && Agrees(x, sid)
  {
    RunKeepsInv(cfg, start, ops);
    RunKeepsKept(cfg, start, ops);
    var x := Run(cfg, start, ops);
    if sid in x.fed.rows && sid !in x.stale { assert Kept(cfg, x, sid); }
  }

  // ---- the last second ----

  /** Some run that uses the session only while get answers has it obtainable, d ms before absolute expiry, with a
      client list that is not the table. */
  ghost predicate Disagrees(cfg: Config, d: int) {
    exists start, ops, sid :: DisagreesIn(cfg, d, start, ops, sid)
  }

  ghost predicate DisagreesIn(cfg: Config, d: int, start: int, ops: seq<Op>, sid: Sid) {
    var x := Run(cfg, start, ops);
    && sid in x.fed.rows && sid !in x.stale && Answers(x.fed, sid, x.now)
    && x.fed.rows[sid].absoluteExpiresAt - x.now == d && !Agrees(x, sid)
  }

  const SID := "sid_1"

  function Created(cfg: Config): Session {
    NewSession(cfg, "u", SID, "h", 0)
  }

  /** A session touched every second for k seconds. */
  function Alive(cfg: Config, k: nat): seq<Op> {
    if k == 0 then [CreateOp("u", SID, "h")] else Alive(cfg, k - 1) + [Tick(1000)] + [TouchOp(Created(cfg))]
  }

  /** What the runs below keep: the created session is held and obtainable until deadline, nothing is stale. */
  predicate Runs(cfg: Config, x: Sys, now: int, deadline: int) {
    && x.now == now && x.stale == {} && Created(cfg) in x.held
    && SID in x.fed.rows && x.fed.rows[SID].absoluteExpiresAt == cfg.absoluteTtl * 1000
    && SID in x.fed.sessions && x.fed.sessions[SID].deadline == deadline
    && x.fed.sessions[SID].value == Created(cfg).(expiresAt := x.fed.sessions[SID].value.expiresAt)
  }

  predicate NoClients(x: Sys) {
    SID !in x.fed.participants && SID !in x.fed.sessionClients
  }

  lemma FirstSecond(cfg: Config)
    requires cfg.Valid()
    ensures Runs(cfg, Run(cfg, 0, Alive(cfg, 0)), 0, cfg.idleTtl * 1000) && NoClients(Run(cfg, 0, Alive(cfg, 0)))
  {
    RunMore(cfg, 0, [], CreateOp("u", SID, "h"));
    assert [] + [CreateOp("u", SID, "h")] == [CreateOp("u", SID, "h")];
  }

  lemma NextSecond(cfg: Config, x: Sys, k: nat)
    requires cfg.Valid() && 2 <= cfg.idleTtl && 0 < k <= cfg.absoluteTtl - 2
    requires Runs(cfg, x, (k - 1) * 1000, (k - 1 + Min(cfg.idleTtl, cfg.absoluteTtl - k + 1)) * 1000) && NoClients(x)
    ensures var y := Step(cfg, Step(cfg, x, Tick(1000)), TouchOp(Created(cfg)));
            Runs(cfg, y, k * 1000, (k + Min(cfg.idleTtl, cfg.absoluteTtl - k)) * 1000) && NoClients(y)
  {
    assert Answers(x.fed, SID, x.now + 1000);
    assert TouchTtl(cfg, Created(cfg), k * 1000) == Min(cfg.idleTtl, cfg.absoluteTtl - k);
  }

  lemma {:induction false} StaysAlive(cfg: Config, k: nat)
    requires cfg.Valid() && 2 <= cfg.idleTtl && k <= cfg.absoluteTtl - 2
    ensures var x := Run(cfg, 0, Alive(cfg, k));
            Runs(cfg, x, k * 1000, (k + Min(cfg.idleTtl, cfg.absoluteTtl - k)) * 1000) && NoClients(x)
  {
    if k == 0 {
      FirstSecond(cfg);
    } else {
      StaysAlive(cfg, k - 1);
      RunMore(cfg, 0, Alive(cfg, k - 1), Tick(1000));
      RunMore(cfg, 0, Alive(cfg, k - 1) + [Tick(1000)], TouchOp(Created(cfg)));
      NextSecond(cfg, Run(cfg, 0, Alive(cfg, k - 1)), k);
    }
  }

  /** One client a millisecond after the last touch, another d ms before absolute expiry. */
  lemma LastClients(cfg: Config, x: Sys, d: int)
    requires cfg.Valid() && 2 <= cfg.idleTtl && 0 < d <= 999
    requires Runs(cfg, x, (cfg.absoluteTtl - 2) * 1000, cfg.absoluteTtl * 1000) && NoClients(x)
    ensures var y := Step(cfg, Step(cfg, x, Tick(1)), AddClientOp(Created(cfg), "rms"));
            var z := Step(cfg, Step(cfg, y, Tick(1999 - d)), AddClientOp(Created(cfg), "ams"));
            && Runs(cfg, z, cfg.absoluteTtl * 1000 - d, cfg.absoluteTtl * 1000)
            && Clients(z.fed, SID, z.now) == {"ams"} && Participants(z.fed, SID) == {"rms", "ams"}
  {
    var s := Created(cfg);
    var y := Step(cfg, Step(cfg, x, Tick(1)), AddClientOp(s, "rms"));
    assert ClientTtl(s, (cfg.absoluteTtl - 2) * 1000 + 1) == 1;
    assert SMembers(x.fed.sessionClients, SID, x.now + 1) == {};
    assert {} + {"rms"} == {"rms"};
    assert y.fed.sessionClients[SID].value == {"rms"};
    assert y.fed.sessionClients[SID].deadline == cfg.absoluteTtl * 1000 - 999;
    assert Runs(cfg, y, (cfg.absoluteTtl - 2) * 1000 + 1, cfg.absoluteTtl * 1000);
    assert Answers(y.fed, SID, y.now + 1999 - d);
    assert ClientTtl(s, cfg.absoluteTtl * 1000 - d) == 1;
  }

  lemma LastSecondWitness(cfg: Config, d: int)
    requires cfg.Valid() && 2 <= cfg.idleTtl && 0 < d <= 999
    ensures Disagrees(cfg, d)
  {
    hide Run;
    var k := cfg.absoluteTtl - 2;
    StaysAlive(cfg, k);
    var a := Alive(cfg, k);
    var b := a + [Tick(1)];
    var c := b + [AddClientOp(Created(cfg), "rms")];
    var e := c + [Tick(1999 - d)];
    var f := e + [AddClientOp(Created(cfg), "ams")];
    RunMore(cfg, 0, a, Tick(1));
    RunMore(cfg, 0, b, AddClientOp(Created(cfg), "rms"));
    RunMore(cfg, 0, c, Tick(1999 - d));
    RunMore(cfg, 0, e, AddClientOp(Created(cfg), "ams"));
    LastClients(cfg, Run(cfg, 0, a), d);
    assert "rms" !in {"ams"};
    assert DisagreesIn(cfg, d, 0, f, SID);
  }

  /** The bound is exact: such a run exists d ms before absolute expiry if and only if d is at most 999 and the idle
      lifetime is at least two seconds. */
  lemma LastSecondDisagreesExactlyWhen(cfg: Config, d: int)
    requires cfg.Valid()
    ensures Disagrees(cfg, d) <==> 2 <= cfg.idleTtl && 0 < d <= 999
  {
    if 2 <= cfg.idleTtl && 0 < d <= 999 {
      LastSecondWitness(cfg, d);
    } else {
      forall start, ops, sid ensures !DisagreesIn(cfg, d, start, ops, sid) {
        CacheAgreesWithTable(cfg, start, ops, sid);
        RunKeepsInv(cfg, start, ops);
      }
    }
  }

  // ---- a session used after its key lapsed ----

  /** A request read the session in the last millisecond of its idle time and goes on a millisecond later. */
  function Straddling(cfg: Config): seq<Op>
    requires cfg.Valid()
  {
    [CreateOp("u", SID, "h")] + [AddClientOp(Created(cfg), "rms")] + [TouchOp(Created(cfg))]
      + [Tick(cfg.idleTtl * 1000 - 1)]
    + [GetOp(SID)] + [Tick(1)] + [TouchOp(Created(cfg))] + [AddClientOp(Created(cfg), "ams")]
  }

  predicate Waiting(cfg: Config, y: Sys) {
    && Created(cfg) in y.held && SID in y.fed.rows && y.fed.rows[SID].revokedAt.None?
    && SID in y.fed.participants && y.fed.participants[SID] == {"rms"}
    && SID in y.fed.sessionClients && y.fed.sessionClients[SID].deadline == cfg.idleTtl * 1000
  }

  lemma StraddlingReads(cfg: Config, x: Sys)
    requires cfg.Valid() && cfg.idleTtl < cfg.absoluteTtl && Runs(cfg, x, 0, cfg.idleTtl * 1000) && NoClients(x)
    requires x.fed.rows[SID].revokedAt.None?
    ensures var y := Step(cfg, Step(cfg, x, AddClientOp(Created(cfg), "rms")), TouchOp(Created(cfg)));
            y.now == 0 && Waiting(cfg, y)
  {
    assert ClientTtl(Created(cfg), 0) == cfg.absoluteTtl;
    assert TouchTtl(cfg, Created(cfg), 0) == cfg.idleTtl;
  }

  lemma StraddlingActs(cfg: Config, y: Sys)
    requires cfg.Valid() && cfg.idleTtl < cfg.absoluteTtl && Waiting(cfg, y) && y.now == cfg.idleTtl * 1000
    ensures var z := Step(cfg, Step(cfg, y, TouchOp(Created(cfg))), AddClientOp(Created(cfg), "ams"));
            && z.now == y.now && SID in z.fed.rows && Answers(z.fed, SID, z.now) && z.fed.rows[SID].revokedAt.None?
            && Clients(z.fed, SID, z.now) == {"ams"} && Participants(z.fed, SID) == {"rms", "ams"}
  {
    assert !Live(y.fed.sessionClients, SID, y.now);
    assert 1 <= TouchTtl(cfg, Created(cfg), y.now);
  }

  /** Without that discipline the list can be wrong long before absolute expiry: the session is live and unrevoked, and
      a revoke returns a list without the first client, which a logout would then not tell. */
  lemma StraddlingHidesClient(cfg: Config)
    requires cfg.Valid() && cfg.idleTtl < cfg.absoluteTtl
    ensures var x := Run(cfg, 0, Straddling(cfg));
            && x.now == cfg.idleTtl * 1000 && SID in x.fed.rows && Answers(x.fed, SID, x.now)
            && x.fed.rows[SID].revokedAt.None?
            && Clients(x.fed, SID, x.now) == {"ams"} && Participants(x.fed, SID) == {"rms", "ams"}
            && Revoke(x.fed, SID, x.now).1.Some? && Revoke(x.fed, SID, x.now).1.value.clients == {"ams"}
  {
    hide Run, Inv;
    var s := Created(cfg);
    var c := Alive(cfg, 0) + [AddClientOp(s, "rms")] + [TouchOp(s)];
    var f := c + [Tick(cfg.idleTtl * 1000 - 1)] + [GetOp(SID)] + [Tick(1)];
    StraddlingStarts(cfg);
    StraddlingWaits(cfg, c);
    RunMore(cfg, 0, f, TouchOp(s));
    RunMore(cfg, 0, f + [TouchOp(s)], AddClientOp(s, "ams"));
    StraddlingActs(cfg, Run(cfg, 0, f));
    assert Straddling(cfg) == f + [TouchOp(s)] + [AddClientOp(s, "ams")];
    RunKeepsInv(cfg, 0, Straddling(cfg));
    RevokeOutcome(cfg, Run(cfg, 0, Straddling(cfg)), SID);
  }

  lemma StraddlingStarts(cfg: Config)
    requires cfg.Valid() && cfg.idleTtl < cfg.absoluteTtl
    ensures var c := Alive(cfg, 0) + [AddClientOp(Created(cfg), "rms")] + [TouchOp(Created(cfg))];
            Run(cfg, 0, c).now == 0 && Waiting(cfg, Run(cfg, 0, c))
  {
    var s, a := Created(cfg), Alive(cfg, 0);
    FirstSecond(cfg);
    FirstUnrevoked(cfg);
    RunMore(cfg, 0, a, AddClientOp(s, "rms"));
    RunMore(cfg, 0, a + [AddClientOp(s, "rms")], TouchOp(s));
    StraddlingReads(cfg, Run(cfg, 0, a));
  }

  lemma StraddlingWaits(cfg: Config, c: seq<Op>)
    requires cfg.Valid() && Run(cfg, 0, c).now == 0 && Waiting(cfg, Run(cfg, 0, c))
    ensures var f := c + [Tick(cfg.idleTtl * 1000 - 1)] + [GetOp(SID)] + [Tick(1)];
            Run(cfg, 0, f).now == cfg.idleTtl * 1000 && Waiting(cfg, Run(cfg, 0, f))
  {
    var d := c + [Tick(cfg.idleTtl * 1000 - 1)];
    RunMore(cfg, 0, c, Tick(cfg.idleTtl * 1000 - 1));
    RunMore(cfg, 0, d, GetOp(SID));
    RunMore(cfg, 0, d + [GetOp(SID)], Tick(1));
  }

  lemma FirstUnrevoked(cfg: Config)
    ensures var x := Run(cfg, 0, Alive(cfg, 0)); SID in x.fed.rows && x.fed.rows[SID].revokedAt.None?
  {
    RunMore(cfg, 0, [], CreateOp("u", SID, "h"));
    assert [] + [CreateOp("u", SID, "h")] == [CreateOp("u", SID, "h")];
  }
}
