/** Brute-force limits shared by all pods: fixed-window counters in Redis, per client address and per identifier. */
module LoginThrottle {
  import opened Wrappers
  import opened Redis

  type Counters = Store<string, nat>

  /** Windows in seconds. The configuration only admits positive numbers. */
  datatype Limits = Limits(maxPerIp: nat, ipWindow: nat, maxFailures: nat, idWindow: nat)

  predicate Configured(l: Limits) {
    0 < l.maxPerIp && 0 < l.ipWindow && 0 < l.maxFailures && 0 < l.idWindow
  }

  datatype Verdict = Allowed | IpLimited(retryAfter: int) | IdLimited(retryAfter: int)

  /** INCR and EXPIRE NX in one MULTI: an absent or lapsed counter starts a new window, a live one keeps its
      deadline. */
  function Bump(m: Counters, k: string, now: int, window: nat): Counters {
    if Live(m, k, now) then m[k := Entry(m[k].value + 1, m[k].deadline)] else m[k := Entry(1, now + window * 1000)]
  }

  /** TTL: whole seconds, rounded to the nearest; -2 when the key is absent. */
  function Ttl(m: Counters, k: string, now: int): int {
    if Live(m, k, now) then (m[k].deadline - now + 500) / 1000 else -2
  }

  function AtLeastOne(n: int): int {
    if n < 1 then 1 else n
  }

  function Failures(ids: Counters, id: string, now: int): nat {
    if Live(ids, id, now) then ids[id].value else 0
  }

  /** The attempt that is counted now is within the limit of its address. */
  predicate PassesIp(l: Limits, ips: Counters, ip: string, now: int) {
    Bump(ips, ip, now, l.ipWindow)[ip].value <= l.maxPerIp
  }

  function Check(l: Limits, ips: Counters, ids: Counters, ip: string, id: string, now: int): Verdict {
    if !PassesIp(l, ips, ip, now) then IpLimited(AtLeastOne(Ttl(Bump(ips, ip, now, l.ipWindow), ip, now)))
    else if l.maxFailures <= Failures(ids, id, now) then IdLimited(AtLeastOne(Ttl(ids, id, now)))
    else Allowed
  }

  class LoginThrottleService {
    const limits: Limits
    var ips: Counters
    var ids: Counters

    constructor (limits: Limits)
      requires Configured(limits)
      ensures this.limits == limits && ips == map[] && ids == map[]
    {
      this.limits := limits;
      ips, ids := map[], map[];
    }

    /** Counts the attempt against the address whatever the verdict; reads, but does not count, the identifier. */
    method AssertAllowed(ip: string, idHash: string, now: int) returns (verdict: Verdict)
      modifies this`ips
      ensures ips == Bump(old(ips), ip, now, limits.ipWindow)
      ensures verdict == Check(limits, old(ips), ids, ip, idHash, now)
      ensures verdict.Allowed? <==> ips[ip].value <= limits.maxPerIp && Failures(ids, idHash, now) < limits.maxFailures
    {
      // INCR
      ips := if Live(ips, ip, now) then ips[ip := Entry(ips[ip].value + 1, ips[ip].deadline)]
             else ips[ip := Entry(1, now + limits.ipWindow * 1000)];
      var ipCount, ipTtl := ips[ip].value, Ttl(ips, ip, now);
      var failures := Get(ids, idHash, now);
      var idFailures := if failures.Some? then failures.value else 0;
      var idTtl := Ttl(ids, idHash, now);
      if ipCount > limits.maxPerIp { return IpLimited(if ipTtl > 1 then ipTtl else 1); }
      if idFailures >= limits.maxFailures { return IdLimited(if idTtl > 1 then idTtl else 1); }
      return Allowed;
    }

    /** One failure more, in the window that is open or in a new one; no other identifier is touched. */
    method RecordFailure(idHash: string, now: int)
      requires Configured(limits)
      modifies this`ids
      ensures Failures(ids, idHash, now) == old(Failures(ids, idHash, now)) + 1
      ensures idHash in ids
      ensures ids[idHash].deadline
              == if old(Live(ids, idHash, now)) then old(ids)[idHash].deadline else now + limits.idWindow * 1000
      ensures ids - {idHash} == old(ids) - {idHash}
    {
      ids := Bump(ids, idHash, now, limits.idWindow);
    }

    method RecordSuccess(idHash: string)
      modifies this`ids
      ensures ids == Del(old(ids), idHash)
      ensures forall now :: Failures(ids, idHash, now) == 0
    {
      ids := Del(ids, idHash);
    }
  }

  // ---- the wait that a refusal announces ----

  /** w whole seconds for what is left of a window: at least one, never half a second too few, and past one second at
      most half a second too many. */
  predicate Announced(w: int, left: int) {
    1 <= w && left < w * 1000 + 500 && (1 < w ==> w * 1000 <= left + 500)
  }

  /** A client that waits as announced finds the window lapsed exactly if what was left is at most a second or is not
      rounded down. */
  lemma WaitSuffices(w: int, left: int)
    requires Announced(w, left) && 0 < left
    ensures left <= w * 1000 <==> left <= 1000 || left % 1000 == 0 || 500 <= left % 1000
  {
  }

  /** Attempts are refused for the address before the identifier. A refusal announces the wait for the counter that
      refused: until that counter's window ends no attempt passes it, and from then on one does. */
  lemma RefusedUntil(l: Limits, ips: Counters, ids: Counters, ip: string, id: string, now: int, later: int)
    requires Configured(l) && now <= later
    ensures var v, bumped := Check(l, ips, ids, ip, id, now), Bump(ips, ip, now, l.ipWindow);
            && (v.IpLimited? <==> l.maxPerIp < bumped[ip].value)
            && (v.IpLimited? ==>
                 && Announced(v.retryAfter, bumped[ip].deadline - now)
                 && (PassesIp(l, bumped, ip, later) <==> bumped[ip].deadline <= later))
    ensures var v := Check(l, ips, ids, ip, id, now);
            && (v.IdLimited? <==> PassesIp(l, ips, ip, now) && l.maxFailures <= Failures(ids, id, now))
            && (v.IdLimited? ==>
                 && id in ids && now < ids[id].deadline && Announced(v.retryAfter, ids[id].deadline - now)
                 && (Failures(ids, id, later) < l.maxFailures <==> ids[id].deadline <= later))
  {
  }

  // ---- concurrent requests: each MULTI is one step, requests interleave freely ----

  /** inFlight: identifiers of the requests that were allowed and have not ended yet. */
  datatype Sys = Sys(now: int, ips: Counters, ids: Counters, inFlight: multiset<string>)

  datatype Op =
    | Tick(ms: nat)
    | Attempt(ip: string, id: string)  // assertAllowed
    | Fail(id: string)                 // recordFailure, the request ends
    | Succeed(id: string)              // recordSuccess, the request ends
    | Drop(id: string)                 // the request ends in another way

  function Ended(s: Sys, id: string, ids: Counters): Sys {
    s.(ids := ids, inFlight := s.inFlight - multiset{id})
  }

  function Attempted(l: Limits, s: Sys, ip: string, id: string): Sys {
    var allowed := Check(l, s.ips, s.ids, ip, id, s.now).Allowed?;
    s.(ips := Bump(s.ips, ip, s.now, l.ipWindow), inFlight := if allowed then s.inFlight + multiset{id} else s.inFlight)
  }

  function Step(l: Limits, s: Sys, op: Op): Sys {
    match op
    case Tick(ms) => s.(now := s.now + ms)
    case Attempt(ip, id) => Attempted(l, s, ip, id)
    case Fail(id) => if id in s.inFlight then Ended(s, id, Bump(s.ids, id, s.now, l.idWindow)) else s
    case Succeed(id) => if id in s.inFlight then Ended(s, id, Del(s.ids, id)) else s
    case Drop(id) => if id in s.inFlight then Ended(s, id, s.ids) else s
  }

  function Run(l: Limits, start: int, ops: seq<Op>): Sys {
    if ops == [] then Sys(start, map[], map[], multiset{}) else Step(l, Run(l, start, ops[..|ops| - 1]), ops[|ops| - 1])
  }

  // ---- the window bound ----

  predicate CountsIn(l: Limits, s: Sys, op: Op, ip: string, from: int, to: int) {
    op.Attempt? && op.ip == ip && from <= s.now < to && PassesIp(l, s.ips, ip, s.now)
  }

  /** How many attempts of the address passed the address check at a time in [from, to). */
  function Passed(l: Limits, start: int, ops: seq<Op>, ip: string, from: int, to: int): nat {
    if ops == [] then 0 else
    var before := ops[..|ops| - 1];
    var counts := CountsIn(l, Run(l, start, before), ops[|ops| - 1], ip, from, to);
    Passed(l, start, before, ip, from, to) + if counts then 1 else 0
  }

  function Least(a: int, b: int): int {
    if a < b then a else b
  }

  /** p attempts passed in [from, to), and the counter of the address stands at e: what p can be, by where the interval
      begins relative to the current window and the one before it. */
  predicate Bounded(l: Limits, now: int, e: Entry<nat>, p: nat, from: int, to: int) {
    var length := l.ipWindow * 1000;
    var began := e.deadline - length;
    && began <= now && 1 <= e.value
    && (e.deadline <= from ==> p == 0)
    && (began <= from ==> p <= Least(e.value, l.maxPerIp))
    && (began < from ==> p <= Least(e.value, l.maxPerIp) - 1)
    && (began - length < from ==> p <= l.maxPerIp - 1 + Least(e.value, l.maxPerIp))
    && (to <= from + length ==> p <= 2 * l.maxPerIp - 1)
  }

  predicate WindowInv(l: Limits, s: Sys, ip: string, p: nat, from: int, to: int) {
    if ip in s.ips then Bounded(l, s.now, s.ips[ip], p, from, to) else p == 0
  }

  lemma AttemptKeepsBound(l: Limits, s: Sys, ip: string, p: nat, from: int, to: int)
    requires Configured(l) && WindowInv(l, s, ip, p, from, to)
    ensures var counted := from <= s.now < to && PassesIp(l, s.ips, ip, s.now);
            Bounded(l, s.now, Bump(s.ips, ip, s.now, l.ipWindow)[ip], p + if counted then 1 else 0, from, to)
  {
  }

  lemma {:induction false} WindowInvHolds(l: Limits, start: int, ops: seq<Op>, ip: string, from: int, to: int)
    requires Configured(l)
    ensures WindowInv(l, Run(l, start, ops), ip, Passed(l, start, ops, ip, from, to), from, to)
  {
    if ops != [] {
      var before, op := ops[..|ops| - 1], ops[|ops| - 1];
      WindowInvHolds(l, start, before, ip, from, to);
      var s := Run(l, start, before);
      if op.Attempt? && op.ip == ip { AttemptKeepsBound(l, s, ip, Passed(l, start, before, ip, from, to), from, to); }
    }
  }

  /** In any half-open interval of one window, whatever the interleaving, at most 2 * max - 1 attempts of one address
      pass: the interval can meet two windows, but then it misses the attempt that opened the first. */
  lemma WindowBound(l: Limits, start: int, ops: seq<Op>, ip: string, from: int)
    requires Configured(l)
    ensures Passed(l, start, ops, ip, from, from + l.ipWindow * 1000) <= 2 * l.maxPerIp - 1
  {
    WindowInvHolds(l, start, ops, ip, from, from + l.ipWindow * 1000);
  }

  // ---- the bound is attained ----

  /** What one address sees: the clock, its counter, and how many of its attempts passed in [from, to). */
  datatype View = View(now: int, counter: Option<Entry<nat>>, passed: nat)

  function Next(l: Limits, ip: string, from: int, to: int, v: View, op: Op): View {
    match op
    case Tick(ms) => v.(now := v.now + ms)
    case Attempt(a, _) =>
      if a != ip then v else
      var live := v.counter.Some? && v.now < v.counter.value.deadline;
      var e := if live then Entry(v.counter.value.value + 1, v.counter.value.deadline)
          else Entry(1, v.now + l.ipWindow * 1000);
      View(v.now, Some(e), v.passed + if from <= v.now < to && e.value <= l.maxPerIp then 1 else 0)
    case _ => v
  }

  function Seen(l: Limits, ip: string, from: int, to: int, v: View, ops: seq<Op>): View
    decreases |ops|
  {
    if ops == [] then v else Seen(l, ip, from, to, Next(l, ip, from, to, v, ops[0]), ops[1..])
  }

  function ViewOf(l: Limits, ops: seq<Op>, ip: string, from: int, to: int): View {
    var s := Run(l, 0, ops);
    View(s.now, if ip in s.ips then Some(s.ips[ip]) else None, Passed(l, 0, ops, ip, from, to))
  }

  lemma ViewMore(l: Limits, ops: seq<Op>, op: Op, ip: string, from: int, to: int)
    ensures ViewOf(l, ops + [op], ip, from, to) == Next(l, ip, from, to, ViewOf(l, ops, ip, from, to), op)
  {
    assert (ops + [op])[..|ops|] == ops;
  }

  lemma SeenStep(l: Limits, ip: string, from: int, to: int, v: View, ops: seq<Op>, k: nat)
    requires k < |ops|
    ensures Seen(l, ip, from, to, v, ops[k..]) == Seen(l, ip, from, to, Next(l, ip, from, to, v, ops[k]), ops[k + 1..])
  {
    var rest := ops[k..];
    assert rest[0] == ops[k] && rest[1..] == ops[k + 1..];
  }

  lemma SeenOne(l: Limits, ip: string, from: int, to: int, v: View, op: Op, more: seq<Op>)
    ensures Seen(l, ip, from, to, v, [op] + more) == Seen(l, ip, from, to, Next(l, ip, from, to, v, op), more)
  {
    assert ([op] + more)[1..] == more;
  }

  /** The view of an address depends on nothing but its own attempts and the clock. */
  lemma {:induction false} ViewIsSeen(l: Limits, ops: seq<Op>, k: nat, ip: string, from: int, to: int)
    requires k <= |ops|
    ensures ViewOf(l, ops, ip, from, to) == Seen(l, ip, from, to, ViewOf(l, ops[..k], ip, from, to), ops[k..])
    decreases |ops| - k
  {
    if k == |ops| {
      assert ops[..k] == ops && ops[k..] == [];
    } else {
      ViewMore(l, ops[..k], ops[k], ip, from, to);
      assert ops[..k + 1] == ops[..k] + [ops[k]];
      SeenStep(l, ip, from, to, ViewOf(l, ops[..k], ip, from, to), ops, k);
      ViewIsSeen(l, ops, k + 1, ip, from, to);
    }
  }

  function Burst(n: nat, ip: string, id: string): seq<Op> {
    if n == 0 then [] else [Attempt(ip, id)] + Burst(n - 1, ip, id)
  }

  /** n attempts in one instant, while the counter has room for them. */
  lemma {:induction false} BurstSeen(l: Limits, ip: string, id: string, from: int, to: int, now: int, e: Entry<nat>,
      p: nat, n: nat, more: seq<Op>)
    requires now < e.deadline && e.value + n <= l.maxPerIp && from <= now < to
    ensures Seen(l, ip, from, to, View(now, Some(e), p), Burst(n, ip, id) + more)
            == Seen(l, ip, from, to, View(now, Some(Entry(e.value + n, e.deadline)), p + n), more)
    decreases n
  {
    if n == 0 {
      assert Burst(0, ip, id) + more == more;
    } else {
      assert Burst(n, ip, id) + more == [Attempt(ip, id)] + (Burst(n - 1, ip, id) + more);
      SeenOne(l, ip, from, to, View(now, Some(e), p), Attempt(ip, id), Burst(n - 1, ip, id) + more);
      BurstSeen(l, ip, id, from, to, now, Entry(e.value + 1, e.deadline), p + 1, n - 1, more);
    }
  }

  /** The next window, max attempts. */
  function Refilling(l: Limits, ip: string, id: string): seq<Op>
    requires Configured(l)
  {
    [Tick(1)] + ([Attempt(ip, id)] + (Burst(l.maxPerIp - 1, ip, id) + []))
  }

  /** One attempt, a pause until the window's last millisecond, max - 1 more; then the next window. */
  function Filling(l: Limits, ip: string, id: string): seq<Op>
    requires Configured(l)
  {
    [Attempt(ip, id)] + ([Tick(l.ipWindow * 1000 - 1)] + (Burst(l.maxPerIp - 1, ip, id) + Refilling(l, ip, id)))
  }

  lemma RefillingSeen(l: Limits, ip: string, id: string, to: int, now: int, p: nat)
    requires Configured(l) && 0 <= now && now + 1 < to
    ensures Seen(l, ip, 1, to, View(now, Some(Entry(l.maxPerIp, now + 1)), p), Refilling(l, ip, id)).passed
        == p + l.maxPerIp
  {
    var w, rest := l.ipWindow * 1000, Burst(l.maxPerIp - 1, ip, id) + [];
    SeenOne(l, ip, 1, to, View(now, Some(Entry(l.maxPerIp, now + 1)), p), Tick(1), [Attempt(ip, id)] + rest);
    SeenOne(l, ip, 1, to, View(now + 1, Some(Entry(l.maxPerIp, now + 1)), p), Attempt(ip, id), rest);
    BurstSeen(l, ip, id, 1, to, now + 1, Entry(1, now + 1 + w), p + 1, l.maxPerIp - 1, []);
  }

  lemma FillingSeen(l: Limits, ip: string, id: string)
    requires Configured(l)
    ensures Seen(l, ip, 1, 1 + l.ipWindow * 1000, View(0, None, 0), Filling(l, ip, id)).passed == 2 * l.maxPerIp - 1
  {
    var w, refill := l.ipWindow * 1000, Refilling(l, ip, id);
    var rest := Burst(l.maxPerIp - 1, ip, id) + refill;
    SeenOne(l, ip, 1, 1 + w, View(0, None, 0), Attempt(ip, id), [Tick(w - 1)] + rest);
    SeenOne(l, ip, 1, 1 + w, View(0, Some(Entry(1, w)), 0), Tick(w - 1), rest);
    BurstSeen(l, ip, id, 1, 1 + w, w - 1, Entry(1, w), 0, l.maxPerIp - 1, refill);
    RefillingSeen(l, ip, id, 1 + w, w - 1, l.maxPerIp - 1);
  }

  /** No smaller bound is right, for any setting of the limits. */
  lemma WindowBoundIsAttained(l: Limits, ip: string, id: string)
    requires Configured(l)
    ensures Passed(l, 0, Filling(l, ip, id), ip, 1, 1 + l.ipWindow * 1000) == 2 * l.maxPerIp - 1
  {
    var ops := Filling(l, ip, id);
    ViewIsSeen(l, ops, 0, ip, 1, 1 + l.ipWindow * 1000);
    assert ops[..0] == [] && ops[0..] == ops;
    FillingSeen(l, ip, id);
  }

  // ---- the identifier bound ----

  /** Every recorded failure came from a request that was in flight, and none starts at the limit. */
  predicate FailuresBounded(l: Limits, c: nat, s: Sys, id: string) {
    Failures(s.ids, id, s.now) + s.inFlight[id] <= l.maxFailures - 1 + c
  }

  lemma StepKeepsFailuresBounded(l: Limits, c: nat, s: Sys, op: Op, id: string)
    requires Configured(l) && FailuresBounded(l, c, s, id) && s.inFlight[id] <= c
    requires Step(l, s, op).inFlight[id] <= c
    ensures FailuresBounded(l, c, Step(l, s, op), id)
  {
  }

  /** At no moment of the run more than c requests of the identifier are in flight. */
  predicate AtMostInFlight(l: Limits, start: int, ops: seq<Op>, id: string, c: nat) {
    Run(l, start, ops).inFlight[id] <= c && (ops == [] || AtMostInFlight(l, start, ops[..|ops| - 1], id, c))
  }

  /** Then its failure counter never passes max - 1 + c, even counting every failure that those in flight can still
      add. */
  lemma {:induction false} IdentifierBound(l: Limits, start: int, ops: seq<Op>, id: string, c: nat)
    requires Configured(l) && AtMostInFlight(l, start, ops, id, c)
    ensures FailuresBounded(l, c, Run(l, start, ops), id)
  {
    if ops != [] {
      var before := ops[..|ops| - 1];
      IdentifierBound(l, start, before, id, c);
      StepKeepsFailuresBounded(l, c, Run(l, start, before), ops[|ops| - 1], id);
    }
  }

  // ---- this bound is attained, too ----

  /** The address of the n-th attempt; no two are the same. */
  function Address(n: nat): string {
    seq(n, _ => 'a')
  }

  /** From s the operations lead to t, never with more than c requests of the identifier in flight. */
  predicate Leads(l: Limits, id: string, c: nat, s: Sys, ops: seq<Op>, t: Sys)
    decreases |ops|
  {
    s.inFlight[id] <= c && if ops == [] then s == t else Leads(l, id, c, Step(l, s, ops[0]), ops[1..], t)
  }

  lemma {:induction false} LeadsOn(l: Limits, id: string, c: nat, s: Sys, first: seq<Op>, t: Sys, second: seq<Op>,
      u: Sys)
    requires Leads(l, id, c, s, first, t) && Leads(l, id, c, t, second, u)
    ensures Leads(l, id, c, s, first + second, u)
    decreases |first|
  {
    if first == [] {
      assert first + second == second;
    } else {
      LeadsOn(l, id, c, Step(l, s, first[0]), first[1..], t, second, u);
      assert (first + second)[1..] == first[1..] + second;
    }
  }

  lemma LeadsOne(l: Limits, id: string, c: nat, s: Sys, op: Op)
    requires s.inFlight[id] <= c && Step(l, s, op).inFlight[id] <= c
    ensures Leads(l, id, c, s, [op], Step(l, s, op))
  {
    assert [op][1..] == [];
  }

  lemma RunStep(l: Limits, ops: seq<Op>, k: nat, id: string, c: nat)
    requires k < |ops| && AtMostInFlight(l, 0, ops[..k], id, c)
    requires Step(l, Run(l, 0, ops[..k]), ops[k]).inFlight[id] <= c
    ensures AtMostInFlight(l, 0, ops[..k + 1], id, c) && Run(l, 0, ops[..k + 1]) == Step(l, Run(l, 0, ops[..k]), ops[k])
  {
    var now := ops[..k + 1];
    assert now[..|now| - 1] == ops[..k] && now[|now| - 1] == ops[k];
  }

  lemma LeadsStep(l: Limits, id: string, c: nat, s: Sys, ops: seq<Op>, k: nat, t: Sys)
    requires k < |ops| && Leads(l, id, c, s, ops[k..], t)
    ensures Step(l, s, ops[k]).inFlight[id] <= c && Leads(l, id, c, Step(l, s, ops[k]), ops[k + 1..], t)
  {
    var rest := ops[k..];
    assert rest[0] == ops[k] && rest[1..] == ops[k + 1..];
  }

  lemma LeadsNowhere(l: Limits, id: string, c: nat, s: Sys, t: Sys)
    requires Leads(l, id, c, s, [], t)
    ensures s == t
  {
  }

  lemma {:induction false} LeadsIsRun(l: Limits, id: string, c: nat, ops: seq<Op>, k: nat, t: Sys)
    requires k <= |ops| && AtMostInFlight(l, 0, ops[..k], id, c) && Leads(l, id, c, Run(l, 0, ops[..k]), ops[k..], t)
    ensures AtMostInFlight(l, 0, ops, id, c) && Run(l, 0, ops) == t
    decreases |ops| - k
  {
    if k == |ops| {
      assert ops[..k] == ops && ops[k..] == [];
      LeadsNowhere(l, id, c, Run(l, 0, ops), t);
    } else {
      LeadsStep(l, id, c, Run(l, 0, ops[..k]), ops, k, t);
      RunStep(l, ops, k, id, c);
      LeadsIsRun(l, id, c, ops, k + 1, t);
    }
  }

  /** At time 0: the failures of the identifier, its requests in flight, and how many addresses were used. */
  ghost predicate Standing(s: Sys, id: string, failures: nat, pending: nat, used: nat) {
    && s.now == 0 && Failures(s.ids, id, 0) == failures && s.inFlight[id] == pending
    && forall ip :: ip in s.ips ==> |ip| < used
  }

  lemma AttemptMoves(l: Limits, s: Sys, id: string, c: nat, failures: nat, pending: nat, used: nat)
    requires Configured(l) && Standing(s, id, failures, pending, used) && failures < l.maxFailures && pending < c
    ensures var t := Step(l, s, Attempt(Address(used), id));
            Standing(t, id, failures, pending + 1, used + 1) && Leads(l, id, c, s, [Attempt(Address(used), id)], t)
  {
    assert Address(used) !in s.ips;
    LeadsOne(l, id, c, s, Attempt(Address(used), id));
  }

  lemma FailMoves(l: Limits, s: Sys, id: string, c: nat, failures: nat, pending: nat, used: nat)
    requires Configured(l) && Standing(s, id, failures, pending, used) && 0 < pending <= c
    ensures var t := Step(l, s, Fail(id));
            Standing(t, id, failures + 1, pending - 1, used)
            && Leads(l, id, c, s, [Fail(id)], t)
  {
    LeadsOne(l, id, c, s, Fail(id));
  }

  function InTurn(id: string, n: nat): seq<Op> {
    if n == 0 then [] else InTurn(id, n - 1) + [Attempt(Address(n - 1), id)] + [Fail(id)]
  }

  function Started(id: string, used: nat, n: nat): seq<Op> {
    if n == 0 then [] else Started(id, used, n - 1) + [Attempt(Address(used + n - 1), id)]
  }

  function Ending(id: string, n: nat): seq<Op> {
    if n == 0 then [] else Ending(id, n - 1) + [Fail(id)]
  }

  /** max - 1 failures in turn, then c attempts in flight at once, which all fail. */
  function Overlap(l: Limits, id: string, c: nat): seq<Op>
    requires Configured(l)
  {
    InTurn(id, l.maxFailures - 1) + (Started(id, l.maxFailures - 1, c) + Ending(id, c))
  }

  const NOBODY := Sys(0, map[], map[], multiset{})

  /** One attempt of the identifier more, allowed, after a run. */
  lemma OneStarted(l: Limits, s: Sys, ops: seq<Op>, u: Sys, id: string, c: nat, failures: nat, pending: nat, used: nat)
    returns (t: Sys)
    requires Configured(l) && Leads(l, id, c, s, ops, u) && Standing(u, id, failures, pending, used)
    requires failures < l.maxFailures && pending < c
    ensures Standing(t, id, failures, pending + 1, used + 1)
    ensures Leads(l, id, c, s, ops + [Attempt(Address(used), id)], t)
  {
    AttemptMoves(l, u, id, c, failures, pending, used);
    t := Step(l, u, Attempt(Address(used), id));
    LeadsOn(l, id, c, s, ops, u, [Attempt(Address(used), id)], t);
  }

  /** One failure more after a run. */
  lemma OneFailed(l: Limits, s: Sys, ops: seq<Op>, u: Sys, id: string, c: nat, failures: nat, pending: nat, used: nat)
    returns (t: Sys)
    requires Configured(l) && Leads(l, id, c, s, ops, u) && Standing(u, id, failures, pending, used) && 0 < pending <= c
    ensures Standing(t, id, failures + 1, pending - 1, used) && Leads(l, id, c, s, ops + [Fail(id)], t)
  {
    FailMoves(l, u, id, c, failures, pending, used);
    t := Step(l, u, Fail(id));
    LeadsOn(l, id, c, s, ops, u, [Fail(id)], t);
  }

  lemma NobodyStands(id: string)
    ensures Standing(NOBODY, id, 0, 0, 0)
  {
  }

  lemma LeadsNothing(l: Limits, id: string, c: nat, s: Sys, failures: nat, pending: nat, used: nat)
    requires Standing(s, id, failures, pending, used) && pending <= c
    ensures Leads(l, id, c, s, [], s)
  {
  }

  lemma {:induction false} InTurnLeads(l: Limits, id: string, c: nat, n: nat) returns (t: Sys)
    requires Configured(l) && 1 <= c && n < l.maxFailures
    ensures Standing(t, id, n, 0, n) && Leads(l, id, c, NOBODY, InTurn(id, n), t)
  {
    hide Leads, Standing;
    if n == 0 {
      NobodyStands(id);
      LeadsNothing(l, id, c, NOBODY, 0, 0, 0);
      t := NOBODY;
    } else {
      var front := InTurn(id, n - 1);
      var u := InTurnLeads(l, id, c, n - 1);
      var v := OneStarted(l, NOBODY, front, u, id, c, n - 1, 0, n - 1);
      t := OneFailed(l, NOBODY, front + [Attempt(Address(n - 1), id)], v, id, c, n - 1, 1, n);
    }
  }

  lemma {:induction false} StartedLeads(l: Limits, s: Sys, id: string, c: nat, failures: nat, used: nat, n: nat)
    returns (t: Sys)
    requires Configured(l) && Standing(s, id, failures, 0, used) && failures < l.maxFailures && n <= c
    ensures Standing(t, id, failures, n, used + n) && Leads(l, id, c, s, Started(id, used, n), t)
  {
    hide Leads, Standing;
    if n == 0 {
      LeadsNothing(l, id, c, s, failures, 0, used);
      t := s;
    } else {
      var u := StartedLeads(l, s, id, c, failures, used, n - 1);
      t := OneStarted(l, s, Started(id, used, n - 1), u, id, c, failures, n - 1, used + n - 1);
    }
  }

  lemma {:induction false} EndingLeads(l: Limits, s: Sys, id: string, c: nat, failures: nat, used: nat, n: nat)
    returns (t: Sys)
    requires Configured(l) && Standing(s, id, failures, c, used) && n <= c
    ensures Standing(t, id, failures + n, c - n, used) && Leads(l, id, c, s, Ending(id, n), t)
  {
    hide Leads, Standing;
    if n == 0 {
      LeadsNothing(l, id, c, s, failures, c, used);
      t := s;
    } else {
      var u := EndingLeads(l, s, id, c, failures, used, n - 1);
      t := OneFailed(l, s, Ending(id, n - 1), u, id, c, failures + n - 1, c - n + 1, used);
    }
  }

  lemma OverlapLeads(l: Limits, id: string, c: nat) returns (t: Sys)
    requires Configured(l) && 1 <= c
    ensures Standing(t, id, l.maxFailures - 1 + c, 0, l.maxFailures - 1 + c)
    ensures Leads(l, id, c, NOBODY, Overlap(l, id, c), t)
  {
    hide Leads, Standing;
    var m := l.maxFailures - 1;
    var u := InTurnLeads(l, id, c, m);
    var v := StartedLeads(l, u, id, c, m, m, c);
    t := EndingLeads(l, v, id, c, m, m + c, c);
    LeadsOn(l, id, c, u, Started(id, m, c), v, Ending(id, c), t);
    LeadsOn(l, id, c, NOBODY, InTurn(id, m), u, Started(id, m, c) + Ending(id, c), t);
  }

  lemma LeadsFromStart(l: Limits, id: string, c: nat, ops: seq<Op>, t: Sys)
    requires Leads(l, id, c, NOBODY, ops, t)
    ensures AtMostInFlight(l, 0, ops, id, c) && Run(l, 0, ops) == t
  {
    assert ops[..0] == [] && ops[0..] == ops;
    LeadsIsRun(l, id, c, ops, 0, t);
  }

  /** For all limits and every c from one on, a run with at most c requests in flight takes the counter to max - 1 +
      c. */
  lemma IdentifierBoundIsAttained(l: Limits, id: string, c: nat)
    requires Configured(l) && 1 <= c
    ensures AtMostInFlight(l, 0, Overlap(l, id, c), id, c)
    ensures var s := Run(l, 0, Overlap(l, id, c)); Failures(s.ids, id, s.now) == l.maxFailures - 1 + c
  {
    var ops := Overlap(l, id, c);
    var t := OverlapLeads(l, id, c);
    LeadsFromStart(l, id, c, ops, t);
  }

  /** A live counter keeps its deadline and never goes down, unless a request of the identifier succeeds. */
  lemma StepKeepsLimit(l: Limits, s: Sys, op: Op, id: string)
    requires Live(s.ids, id, s.now) && op != Succeed(id)
    ensures var t := Step(l, s, op);
            s.now <= t.now && id in t.ids && t.ids[id].deadline == s.ids[id].deadline
              && s.ids[id].value <= t.ids[id].value
  {
  }

  lemma StepKeepsTime(l: Limits, s: Sys, op: Op)
    ensures s.now <= Step(l, s, op).now
  {
  }

  lemma RunOfLast(l: Limits, start: int, ops: seq<Op>, more: seq<Op>)
    requires more != []
    ensures Run(l, start, ops + more) == Step(l, Run(l, start, ops + more[..|more| - 1]), more[|more| - 1])
  {
    var all := ops + more;
    assert all[..|all| - 1] == ops + more[..|more| - 1];
  }

  /** Once the counter has reached the limit, it stays there until the window that its first failure opened has lapsed
      or a request already in flight succeeds. */
  lemma {:induction false} CounterStays(l: Limits, start: int, ops: seq<Op>, more: seq<Op>, id: string)
    requires Live(Run(l, start, ops).ids, id, Run(l, start, ops + more).now) && Succeed(id) !in more
    ensures var s, t := Run(l, start, ops), Run(l, start, ops + more);
            s.now <= t.now && id in t.ids && t.ids[id].deadline == s.ids[id].deadline
              && s.ids[id].value <= t.ids[id].value
  {
    hide Run;
    if more == [] {
      assert ops + more == ops;
    } else {
      var before := more[..|more| - 1];
      RunOfLast(l, start, ops, more);
      StepKeepsTime(l, Run(l, start, ops + before), more[|more| - 1]);
      CounterStays(l, start, ops, before, id);
      StepKeepsLimit(l, Run(l, start, ops + before), more[|more| - 1], id);
    }
  }

  /** Meanwhile no attempt of the identifier is allowed, from any address. */
  lemma LimitHolds(l: Limits, start: int, ops: seq<Op>, more: seq<Op>, id: string, ip: string)
    requires var s, t := Run(l, start, ops), Run(l, start, ops + more);
             l.maxFailures <= Failures(s.ids, id, s.now) && Live(s.ids, id, t.now) && Succeed(id) !in more
    ensures var t := Run(l, start, ops + more); !Check(l, t.ips, t.ids, ip, id, t.now).Allowed?
  {
    CounterStays(l, start, ops, more, id);
    var s, t := Run(l, start, ops), Run(l, start, ops + more);
    assert Live(t.ids, id, t.now);
  }
}
