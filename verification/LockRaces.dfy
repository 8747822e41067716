/** The account lock when verifies overlap: each reads the row, compares the password for a while, and counts its
    failure in a later UPDATE. */
module LockRaces {
  import opened Wrappers
  import opened Credentials

  type Tid = nat

  /** A counted comparison: when its UPDATE ran, and how many had been counted when its verify read the row. */
  datatype Count = Count(at: int, seen: nat)

  /** inFlight: the verifies that found the account unlocked and have not ended, with what each had seen. */
  datatype Sys = Sys(now: int, row: UserRow, inFlight: map<Tid, nat>, counted: seq<Count>)

  /** Verifies of one account, none of which succeeds. */
  datatype Event =
    | Tick(ms: nat)
    | Begin(tid: Tid)   // SELECT and lock check
    | Fail(tid: Tid)    // wrong password: the UPDATE
    | Leave(tid: Tid)   // the verify ends in another way: inactive account, hasher error

  function Step(c: Config, s: Sys, e: Event): Sys {
    match e
    case Tick(ms) => s.(now := s.now + ms)
    case Begin(tid) =>
      if tid in s.inFlight || IsLocked(s.row, s.now) then s else s.(inFlight := s.inFlight[tid := |s.counted|])
    case Fail(tid) =>
      if tid !in s.inFlight then s
      else Sys(s.now, AfterFailure(c, s.row, s.now), s.inFlight - {tid}, s.counted + [Count(s.now, s.inFlight[tid])])
    case Leave(tid) => s.(inFlight := s.inFlight - {tid})
  }

  function Run(c: Config, row: UserRow, start: int, events: seq<Event>): Sys {
    if events == [] then Sys(start, row, map[], [])
    else Step(c, Run(c, row, start, events[..|events| - 1]), events[|events| - 1])
  }

  /** How many comparisons after the j-th had not seen it. */
  function Late(counted: seq<Count>, j: nat): nat {
    if |counted| <= j + 1 then 0
    else Late(counted[..|counted| - 1], j) + if counted[|counted| - 1].seen <= j then 1 else 0
  }

  /** The verifies in flight that have not seen the j-th comparison. */
  function Unaware(inFlight: map<Tid, nat>, j: nat): set<Tid> {
    set t | t in inFlight && inFlight[t] <= j
  }

  // ---- the invariant ----

  predicate Ordered(counted: seq<Count>) {
    forall i, j :: 0 <= i < j < |counted| ==> counted[i].at <= counted[j].at
  }

  /** Whoever saw the limit reached saw the lock lapsed. */
  predicate Waited(c: Config, base: nat, counted: seq<Count>, seen: nat, at: int) {
    seen <= |counted| && (1 <= seen && c.maxFailures <= base + seen ==> counted[seen - 1].at + LockLength(c) <= at)
  }

  predicate RowOk(c: Config, base: nat, s: Sys) {
    && s.row.failedCount == base + |s.counted| && Ordered(s.counted)
    && (s.counted != [] ==> s.counted[|s.counted| - 1].at <= s.now)
    && (s.counted != [] && c.maxFailures <= s.row.failedCount ==>
         s.row.lockedUntil == Some(s.counted[|s.counted| - 1].at + LockLength(c)))
  }

  predicate SeenOk(c: Config, base: nat, s: Sys) {
    && (forall i :: 0 <= i < |s.counted| ==>
         s.counted[i].seen <= i && Waited(c, base, s.counted, s.counted[i].seen, s.counted[i].at))
    && (forall t :: t in s.inFlight ==> Waited(c, base, s.counted, s.inFlight[t], s.now))
  }

  predicate LateOk(limit: nat, s: Sys) {
    forall j: nat :: j < |s.counted| ==> Late(s.counted, j) + |Unaware(s.inFlight, j)| <= limit - 1
  }

  predicate Inv(c: Config, base: nat, limit: nat, s: Sys) {
    RowOk(c, base, s) && SeenOk(c, base, s) && LateOk(limit, s)
  }

  lemma LateOfMore(counted: seq<Count>, x: Count, j: nat)
    requires j < |counted|
    ensures Late(counted + [x], j) == Late(counted, j) + if x.seen <= j then 1 else 0
  {
    assert (counted + [x])[..|counted|] == counted;
  }

  lemma UnawareAfter(inFlight: map<Tid, nat>, tid: Tid, j: nat)
    requires tid in inFlight
    ensures |Unaware(inFlight - {tid}, j)| == |Unaware(inFlight, j)| - if inFlight[tid] <= j then 1 else 0
  {
    if inFlight[tid] <= j {
      assert Unaware(inFlight - {tid}, j) == Unaware(inFlight, j) - {tid};
    } else {
      assert Unaware(inFlight - {tid}, j) == Unaware(inFlight, j);
    }
  }

  lemma SubsetSize(a: set<Tid>, b: set<Tid>)
    requires a <= b
    ensures |a| <= |b|
  {
    assert b == a + (b - a);
  }

  lemma UnawareAtMost(inFlight: map<Tid, nat>, j: nat)
    ensures |Unaware(inFlight, j)| <= |inFlight.Keys|
  {
    SubsetSize(Unaware(inFlight, j), inFlight.Keys);
  }

  lemma FailKeepsLate(c: Config, base: nat, limit: nat, s: Sys, tid: Tid)
    requires Inv(c, base, limit, s) && tid in s.inFlight && |s.inFlight.Keys| <= limit
    ensures LateOk(limit, Step(c, s, Fail(tid)))
  {
    var t := Step(c, s, Fail(tid));
    var x := Count(s.now, s.inFlight[tid]);
    forall j: nat | j < |t.counted| ensures Late(t.counted, j) + |Unaware(t.inFlight, j)| <= limit - 1 {
      if j < |s.counted| {
        LateOfMore(s.counted, x, j);
        UnawareAfter(s.inFlight, tid, j);
      } else {
        UnawareAtMost(t.inFlight, j);
        assert t.inFlight.Keys == s.inFlight.Keys - {tid};
      }
    }
  }

  lemma FailKeepsSeen(c: Config, base: nat, limit: nat, s: Sys, tid: Tid)
    requires Inv(c, base, limit, s) && tid in s.inFlight
    ensures RowOk(c, base, Step(c, s, Fail(tid))) && SeenOk(c, base, Step(c, s, Fail(tid)))
  {
    var t := Step(c, s, Fail(tid));
    forall i | 0 <= i < |t.counted|
      ensures t.counted[i].seen <= i && Waited(c, base, t.counted, t.counted[i].seen, t.counted[i].at)
    {
      if i < |s.counted| { assert Waited(c, base, s.counted, s.counted[i].seen, s.counted[i].at); }
    }
  }

  lemma BeginKeepsInv(c: Config, base: nat, limit: nat, s: Sys, tid: Tid)
    requires Inv(c, base, limit, s)
    ensures Inv(c, base, limit, Step(c, s, Begin(tid)))
  {
    var t := Step(c, s, Begin(tid));
    if t != s {
      forall j: nat | j < |s.counted| ensures Unaware(t.inFlight, j) == Unaware(s.inFlight, j) {}
      forall j: nat | j < |t.counted| ensures Late(t.counted, j) + |Unaware(t.inFlight, j)| <= limit - 1 {}
    }
  }

  lemma LeaveKeepsInv(c: Config, base: nat, limit: nat, s: Sys, tid: Tid)
    requires Inv(c, base, limit, s)
    ensures Inv(c, base, limit, Step(c, s, Leave(tid)))
  {
    var t := Step(c, s, Leave(tid));
    forall j: nat | j < |t.counted| ensures Late(t.counted, j) + |Unaware(t.inFlight, j)| <= limit - 1 {
      SubsetSize(Unaware(t.inFlight, j), Unaware(s.inFlight, j));
    }
  }

  lemma StepKeepsInv(c: Config, base: nat, limit: nat, s: Sys, e: Event)
    requires Inv(c, base, limit, s) && |s.inFlight.Keys| <= limit
    ensures Inv(c, base, limit, Step(c, s, e))
  {
    match e
    case Tick(ms) =>
    case Begin(tid) => BeginKeepsInv(c, base, limit, s, tid);
    case Fail(tid) =>
      if tid in s.inFlight {
        FailKeepsLate(c, base, limit, s, tid);
        FailKeepsSeen(c, base, limit, s, tid);
      }
    case Leave(tid) => LeaveKeepsInv(c, base, limit, s, tid);
  }

  /** At no moment of the run more than limit verifies are in flight. */
  predicate AtMostInFlight(c: Config, row: UserRow, start: int, events: seq<Event>, limit: nat) {
    && |Run(c, row, start, events).inFlight.Keys| <= limit
    && (events == [] || AtMostInFlight(c, row, start, events[..|events| - 1], limit))
  }

  lemma {:induction false} RunKeepsInv(c: Config, row: UserRow, start: int, events: seq<Event>, limit: nat)
    requires AtMostInFlight(c, row, start, events, limit)
    ensures Inv(c, row.failedCount, limit, Run(c, row, start, events))
  {
    if events != [] {
      var front := events[..|events| - 1];
      RunKeepsInv(c, row, start, front, limit);
      StepKeepsInv(c, row.failedCount, limit, Run(c, row, start, front), events[|events| - 1]);
    }
  }

  // ---- spacing ----

  lemma {:induction false} LateOfPrefix(counted: seq<Count>, k: nat, j: nat)
    requires k <= |counted|
    ensures Late(counted[..k], j) <= Late(counted, j)
  {
    if k == |counted| {
      assert counted[..k] == counted;
    } else {
      LateOfPrefix(counted[..|counted| - 1], k, j);
      assert counted[..|counted| - 1][..k] == counted[..k];
    }
  }

  /** Among more comparisons than were late, one saw the j-th. */
  lemma {:induction false} SomeoneSaw(counted: seq<Count>, j: nat, k: nat) returns (i: nat)
    requires j <= k < |counted| && Late(counted[..k + 1], j) < k - j
    ensures j < i <= k && j < counted[i].seen
    decreases k
  {
    var p := counted[..k + 1];
    assert p[..k] == counted[..k] && p[k] == counted[k];
    if j < counted[k].seen {
      i := k;
    } else {
      i := SomeoneSaw(counted, j, k - 1);
    }
  }

  /** Whoever saw the j-th comparison at the limit came a lock length after it. */
  lemma SeenSpaces(c: Config, base: nat, s: Sys, j: nat, i: nat)
    requires RowOk(c, base, s) && SeenOk(c, base, s) && i < |s.counted| && j < s.counted[i].seen
    requires c.maxFailures <= base + j + 1
    ensures s.counted[j].at + LockLength(c) <= s.counted[i].at
  {
    assert Waited(c, base, s.counted, s.counted[i].seen, s.counted[i].at);
    var m := s.counted[i].seen - 1;
    assert j < m ==> s.counted[j].at <= s.counted[m].at;
  }

  lemma LateInTime(limit: nat, s: Sys, j: nat, k: nat)
    requires LateOk(limit, s) && j < |s.counted| && k <= |s.counted|
    ensures Late(s.counted[..k], j) <= limit - 1
  {
    LateOfPrefix(s.counted, k, j);
    assert Late(s.counted, j) + |Unaware(s.inFlight, j)| <= limit - 1;
  }

  lemma LimitSpaces(c: Config, base: nat, limit: nat, s: Sys, j: nat)
    requires Inv(c, base, limit, s) && 1 <= limit && j + limit < |s.counted| && c.maxFailures <= base + j + 1
    ensures s.counted[j].at + LockLength(c) <= s.counted[j + limit].at
  {
    LateInTime(limit, s, j, j + limit + 1);
    var i := SomeoneSaw(s.counted, j, j + limit);
    SeenSpaces(c, base, s, j, i);
    assert i < j + limit ==> s.counted[i].at <= s.counted[j + limit].at;
  }

  lemma {:induction false} LimitSpacesFar(c: Config, base: nat, limit: nat, s: Sys, j: nat, q: nat)
    requires Inv(c, base, limit, s) && 1 <= limit && c.maxFailures <= base + j + 1 && j + q * limit < |s.counted|
    ensures s.counted[j].at + q * LockLength(c) <= s.counted[j + q * limit].at
  {
    if 0 < q {
      var before := j + (q - 1) * limit;
      assert q * limit == (q - 1) * limit + limit && q * LockLength(c) == (q - 1) * LockLength(c) + LockLength(c);
      Times(0, q - 1, limit);
      LimitSpacesFar(c, base, limit, s, j, q - 1);
      LimitSpaces(c, base, limit, s, before);
    }
  }

  /** With at most c verifies of an account in flight at once and no success, the comparison that comes c places after
      one at the limit comes at least a lock length later. */
  lemma RacingGuessesSpaced(c: Config, row: UserRow, start: int, events: seq<Event>, limit: nat, j: nat)
    requires 1 <= limit && AtMostInFlight(c, row, start, events, limit)
    requires j + limit < |Run(c, row, start, events).counted| && c.maxFailures <= row.failedCount + j + 1
    ensures var counted := Run(c, row, start, events).counted; counted[j].at + LockLength(c) <= counted[j + limit].at
  {
    RunKeepsInv(c, row, start, events, limit);
    LimitSpaces(c, row.failedCount, limit, Run(c, row, start, events), j);
  }

  /** What c verifies in flight at a time can count in time d once the limit is reached. */
  function Allowance(limit: nat, d: int, length: nat): int
    requires 0 < length
  {
    limit * (d / length + 1)
  }

  lemma AllowanceCovers(n: nat, q: nat, r: nat, limit: nat, d: int, length: nat)
    requires 0 < length && n == q * limit + r && r < limit && q * length <= d
    ensures n + 1 <= Allowance(limit, d, length)
  {
    QuotientAtLeast(q, d, length);
    Times(q, d / length, limit);
    assert limit * (d / length + 1) == d / length * limit + limit;
  }

  lemma StretchFits(c: Config, base: nat, limit: nat, s: Sys, first: nat, m: nat, from: int, q: nat, r: nat)
    requires Inv(c, base, limit, s) && 1 <= limit && 0 < LockLength(c) && first <= m < |s.counted|
    requires c.maxFailures <= base + first + 1 && from <= s.counted[first].at
    requires m - first == q * limit + r && r < limit
    ensures m - first + 1 <= Allowance(limit, s.counted[m].at - from, LockLength(c))
  {
    var k := first + q * limit;
    LimitSpacesFar(c, base, limit, s, first, q);
    assert k < m ==> s.counted[k].at <= s.counted[m].at;
    AllowanceCovers(m - first, q, r, limit, s.counted[m].at - from, LockLength(c));
  }

  lemma Divided(n: nat, d: nat)
    requires 0 < d
    ensures n == n / d * d + n % d && 0 <= n / d && 0 <= n % d < d
  {
  }

  lemma StretchBounded(c: Config, base: nat, limit: nat, s: Sys, i: nat, m: nat)
    requires Inv(c, base, limit, s) && 1 <= limit && 0 < LockLength(c) && 0 < c.maxFailures && i <= m < |s.counted|
    ensures m - i + 1 <= c.maxFailures - 1 + Allowance(limit, s.counted[m].at - s.counted[i].at, LockLength(c))
  {
    var first := if c.maxFailures <= base + i + 1 then i else c.maxFailures - 1 - base;
    assert i < m ==> s.counted[i].at <= s.counted[m].at;
    if first <= m {
      assert i < first ==> s.counted[i].at <= s.counted[first].at;
      Divided(m - first, limit);
      StretchFits(c, base, limit, s, first, m, s.counted[i].at, (m - first) / limit, (m - first) % limit);
    } else {
      AllowanceCovers(0, 0, 0, limit, s.counted[m].at - s.counted[i].at, LockLength(c));
    }
  }

  /** Any stretch of counted comparisons that takes time T has at most max - 1 + c * (floor(T / lock) + 1) of them. */
  ghost predicate Bounded(c: Config, limit: nat, counted: seq<Count>)
    requires 0 < LockLength(c)
  {
    forall i, m :: 0 <= i <= m < |counted| ==>
        m - i + 1 <= c.maxFailures - 1 + Allowance(limit, counted[m].at - counted[i].at, LockLength(c))
  }

  lemma InvBounds(c: Config, base: nat, limit: nat, s: Sys)
    requires Inv(c, base, limit, s) && 1 <= limit && 0 < LockLength(c) && 0 < c.maxFailures
    ensures Bounded(c, limit, s.counted)
  {
    forall i, m | 0 <= i <= m < |s.counted|
      ensures m - i + 1 <= c.maxFailures - 1 + Allowance(limit, s.counted[m].at - s.counted[i].at, LockLength(c))
    {
      StretchBounded(c, base, limit, s, i, m);
    }
  }

  /** Hence the bound on guessing with at most c verifies in flight; one at a time, max + floor(T / lock). */
  lemma RacingLockoutBound(c: Config, row: UserRow, start: int, events: seq<Event>, limit: nat)
    requires 0 < c.maxFailures && 0 < LockLength(c) && 1 <= limit && AtMostInFlight(c, row, start, events, limit)
    ensures Bounded(c, limit, Run(c, row, start, events).counted)
  {
    RunKeepsInv(c, row, start, events, limit);
    InvBounds(c, row.failedCount, limit, Run(c, row, start, events));
  }

  // ---- the bound is attained ----

  /** From s the events lead to t, never with more than limit in flight. */
  predicate Leads(c: Config, limit: nat, s: Sys, events: seq<Event>, t: Sys)
    decreases |events|
  {
    && |s.inFlight.Keys| <= limit
    && if events == [] then s == t else Leads(c, limit, Step(c, s, events[0]), events[1..], t)
  }

  lemma {:induction false} LeadsOn(c: Config, limit: nat, s: Sys, first: seq<Event>, t: Sys, second: seq<Event>, u: Sys)
    requires Leads(c, limit, s, first, t) && Leads(c, limit, t, second, u)
    ensures Leads(c, limit, s, first + second, u)
    decreases |first|
  {
    if first == [] {
      assert first + second == second;
    } else {
      LeadsOn(c, limit, Step(c, s, first[0]), first[1..], t, second, u);
      assert (first + second)[1..] == first[1..] + second;
    }
  }

  lemma LeadsOne(c: Config, limit: nat, s: Sys, e: Event)
    requires |s.inFlight.Keys| <= limit && |Step(c, s, e).inFlight.Keys| <= limit
    ensures Leads(c, limit, s, [e], Step(c, s, e))
  {
    assert [e][1..] == [];
  }

  lemma RunStep(c: Config, row: UserRow, events: seq<Event>, k: nat, limit: nat)
    requires k < |events| && AtMostInFlight(c, row, 0, events[..k], limit)
    requires |Step(c, Run(c, row, 0, events[..k]), events[k]).inFlight.Keys| <= limit
    ensures AtMostInFlight(c, row, 0, events[..k + 1], limit)
    ensures Run(c, row, 0, events[..k + 1]) == Step(c, Run(c, row, 0, events[..k]), events[k])
  {
    var now := events[..k + 1];
    assert now[..|now| - 1] == events[..k] && now[|now| - 1] == events[k];
  }

  lemma LeadsStep(c: Config, limit: nat, s: Sys, events: seq<Event>, k: nat, t: Sys)
    requires k < |events| && Leads(c, limit, s, events[k..], t)
    ensures |Step(c, s, events[k]).inFlight.Keys| <= limit && Leads(c, limit, Step(c, s, events[k]), events[k + 1..], t)
  {
    var rest := events[k..];
    assert rest[0] == events[k] && rest[1..] == events[k + 1..];
  }

  lemma LeadsNowhere(c: Config, limit: nat, s: Sys, t: Sys)
    requires Leads(c, limit, s, [], t)
    ensures s == t
  {
  }

  lemma {:induction false} LeadsIsRun(c: Config, row: UserRow, limit: nat, events: seq<Event>, k: nat, t: Sys)
    requires k <= |events| && AtMostInFlight(c, row, 0, events[..k], limit)
    requires Leads(c, limit, Run(c, row, 0, events[..k]), events[k..], t)
    ensures AtMostInFlight(c, row, 0, events, limit) && Run(c, row, 0, events) == t
    decreases |events| - k
  {
    if k == |events| {
      assert events[..k] == events && events[k..] == [];
      LeadsNowhere(c, limit, Run(c, row, 0, events), t);
    } else {
      LeadsStep(c, limit, Run(c, row, 0, events[..k]), events, k, t);
      RunStep(c, row, events, k, limit);
      LeadsIsRun(c, row, limit, events, k + 1, t);
    }
  }

  lemma LeadsFromStart(c: Config, row: UserRow, limit: nat, events: seq<Event>, t: Sys)
    requires Leads(c, limit, Fresh(row), events, t)
    ensures AtMostInFlight(c, row, 0, events, limit) && Run(c, row, 0, events) == t
  {
    assert events[..0] == [] && events[0..] == events;
    LeadsIsRun(c, row, limit, events, 0, t);
  }

  /** A state by its clock, the comparisons counted, when the last was, the lock, and the verifies lo to hi in
      flight. */
  datatype Point = Point(now: int, count: nat, last: int, lock: Option<int>, lo: nat, hi: nat)

  ghost predicate Matches(row: UserRow, s: Sys, p: Point) {
    && s.now == p.now && s.row == row.(failedCount := p.count, lockedUntil := p.lock)
    && p.lo <= p.hi && (forall t :: t in s.inFlight <==> p.lo <= t < p.hi)
    && |s.counted| == p.count && (0 < p.count ==> s.counted[0].at == 0 && s.counted[p.count - 1].at == p.last)
  }

  lemma {:induction false} RangeSize(m: set<Tid>, lo: nat, hi: nat)
    requires lo <= hi && forall t :: t in m <==> lo <= t < hi
    ensures |m| == hi - lo
    decreases hi - lo
  {
    if lo == hi {
      assert m == {};
    } else {
      RangeSize(m - {hi - 1}, lo, hi - 1);
      assert m == (m - {hi - 1}) + {hi - 1};
    }
  }

  /** One event between two described states. */
  lemma Moves(c: Config, row: UserRow, limit: nat, s: Sys, e: Event, p: Point, q: Point)
    requires Matches(row, s, p) && Matches(row, Step(c, s, e), q) && p.hi <= limit && q.hi <= limit
    ensures Leads(c, limit, s, [e], Step(c, s, e))
  {
    RangeSize(s.inFlight.Keys, p.lo, p.hi);
    RangeSize(Step(c, s, e).inFlight.Keys, q.lo, q.hi);
    LeadsOne(c, limit, s, e);
  }

  lemma Stays(c: Config, row: UserRow, limit: nat, s: Sys, p: Point)
    requires Matches(row, s, p) && p.hi <= limit
    ensures Leads(c, limit, s, [], s)
  {
    RangeSize(s.inFlight.Keys, p.lo, p.hi);
  }

  lemma FreshMatches(row: UserRow)
    requires Untried(row)
    ensures Matches(row, Fresh(row), Point(0, 0, 0, None, 0, 0))
  {
  }

  /** The point after a counted failure. */
  function Counted(c: Config, p: Point): Point {
    p.(count := p.count + 1, last := p.now, lo := p.lo + 1,
       lock := if c.maxFailures <= p.count + 1 then Some(p.now + LockLength(c)) else p.lock)
  }

  lemma BeginMoves(c: Config, row: UserRow, limit: nat, s: Sys, p: Point)
    requires Matches(row, s, p) && p.hi < limit && (p.lock.Some? ==> p.lock.value <= p.now)
    ensures var t := Step(c, s, Begin(p.hi));
            Matches(row, t, p.(hi := p.hi + 1))
            && Leads(c, limit, s, [Begin(p.hi)], t)
  {
    Moves(c, row, limit, s, Begin(p.hi), p, p.(hi := p.hi + 1));
  }

  lemma FailMoves(c: Config, row: UserRow, limit: nat, s: Sys, p: Point)
    requires Matches(row, s, p) && p.lo < p.hi <= limit && (p.count == 0 ==> p.now == 0)
    ensures var t := Step(c, s, Fail(p.lo)); Matches(row, t, Counted(c, p)) && Leads(c, limit, s, [Fail(p.lo)], t)
  {
    Moves(c, row, limit, s, Fail(p.lo), p, Counted(c, p));
  }

  lemma TickMoves(c: Config, row: UserRow, limit: nat, s: Sys, ms: nat, p: Point)
    requires Matches(row, s, p) && p.hi <= limit
    ensures var t := Step(c, s, Tick(ms)); Matches(row, t, p.(now := p.now + ms)) && Leads(c, limit, s, [Tick(ms)], t)
  {
    Moves(c, row, limit, s, Tick(ms), p, p.(now := p.now + ms));
  }

  /** With nobody in flight the numbering starts again. */
  lemma Renumbered(row: UserRow, s: Sys, p: Point)
    requires Matches(row, s, p) && p.lo == p.hi
    ensures Matches(row, s, p.(lo := 0, hi := 0))
  {
  }

  /** Verifies that fail one by one. */
  function Alone(n: nat): seq<Event> {
    if n == 0 then [] else Alone(n - 1) + [Begin(0)] + [Fail(0)]
  }

  function Begun(n: nat): seq<Event> {
    if n == 0 then [] else Begun(n - 1) + [Begin(n - 1)]
  }

  function Failed(n: nat): seq<Event> {
    if n == 0 then [] else Failed(n - 1) + [Fail(n - 1)]
  }

  /** max - 1 failures one by one; then limit verifies that begin together and all fail, and again each time the lock
      lapses. */
  function Volleys(c: Config, limit: nat, q: nat): seq<Event>
    requires 0 < c.maxFailures
  {
    if q == 0 then Alone(c.maxFailures - 1) + (Begun(limit) + Failed(limit))
    else Volleys(c, limit, q - 1) + ([Tick(LockLength(c))] + (Begun(limit) + Failed(limit)))
  }

  predicate Untried(row: UserRow) {
    row.failedCount == 0 && row.lockedUntil == None
  }

  function Fresh(row: UserRow): Sys {
    Sys(0, row, map[], [])
  }

  /** One verify more in flight after a run. */
  lemma OneBegun(c: Config, row: UserRow, limit: nat, s: Sys, events: seq<Event>, u: Sys, p: Point) returns (t: Sys)
    requires Leads(c, limit, s, events, u) && Matches(row, u, p) && p.hi < limit
    requires p.lock.Some? ==> p.lock.value <= p.now
    ensures Matches(row, t, p.(hi := p.hi + 1)) && Leads(c, limit, s, events + [Begin(p.hi)], t)
  {
    BeginMoves(c, row, limit, u, p);
    t := Step(c, u, Begin(p.hi));
    LeadsOn(c, limit, s, events, u, [Begin(p.hi)], t);
  }

  /** One failure more after a run. */
  lemma OneFailed(c: Config, row: UserRow, limit: nat, s: Sys, events: seq<Event>, u: Sys, p: Point) returns (t: Sys)
    requires Leads(c, limit, s, events, u) && Matches(row, u, p) && p.lo < p.hi <= limit
    requires p.count == 0 ==> p.now == 0
    ensures Matches(row, t, Counted(c, p)) && Leads(c, limit, s, events + [Fail(p.lo)], t)
  {
    FailMoves(c, row, limit, u, p);
    t := Step(c, u, Fail(p.lo));
    LeadsOn(c, limit, s, events, u, [Fail(p.lo)], t);
  }

  lemma {:induction false} AloneLeads(c: Config, row: UserRow, limit: nat, n: nat) returns (t: Sys)
    requires Untried(row) && 1 <= limit && n < c.maxFailures
    ensures Matches(row, t, Point(0, n, 0, None, 0, 0)) && Leads(c, limit, Fresh(row), Alone(n), t)
  {
    hide Leads, Matches;
    if n == 0 {
      t := Fresh(row);
      FreshMatches(row);
      Stays(c, row, limit, t, Point(0, 0, 0, None, 0, 0));
    } else {
      var p := Point(0, n - 1, 0, None, 0, 0);
      var front := Alone(n - 1);
      var u := AloneLeads(c, row, limit, n - 1);
      var v := OneBegun(c, row, limit, Fresh(row), front, u, p);
      t := OneFailed(c, row, limit, Fresh(row), front + [Begin(0)], v, p.(hi := 1));
      Renumbered(row, t, Counted(c, p.(hi := 1)));
    }
  }

  lemma {:induction false} BegunLeads(c: Config, row: UserRow, limit: nat, s: Sys, p: Point, n: nat) returns (t: Sys)
    requires Matches(row, s, p) && p.lo == p.hi == 0 && n <= limit && (p.lock.Some? ==> p.lock.value <= p.now)
    ensures Matches(row, t, p.(hi := n)) && Leads(c, limit, s, Begun(n), t)
  {
    hide Leads, Matches;
    if n == 0 {
      t := s;
      Stays(c, row, limit, s, p);
    } else {
      var u := BegunLeads(c, row, limit, s, p, n - 1);
      t := OneBegun(c, row, limit, s, Begun(n - 1), u, p.(hi := n - 1));
    }
  }

  /** After n failures at the limit, of those in flight. */
  function AfterFailures(c: Config, p: Point, n: nat): Point {
    if n == 0 then p else p.(count := p.count + n, last := p.now, lo := n, lock := Some(p.now + LockLength(c)))
  }

  lemma {:induction false} FailedLeads(c: Config, row: UserRow, limit: nat, s: Sys, p: Point, n: nat) returns (t: Sys)
    requires Matches(row, s, p) && p.lo == 0 && p.hi == limit && n <= limit
    requires c.maxFailures <= p.count + 1 && (p.count == 0 ==> p.now == 0)
    ensures Matches(row, t, AfterFailures(c, p, n)) && Leads(c, limit, s, Failed(n), t)
  {
    hide Leads, Matches;
    if n == 0 {
      t := s;
      Stays(c, row, limit, s, p);
    } else {
      var u := FailedLeads(c, row, limit, s, p, n - 1);
      t := OneFailed(c, row, limit, s, Failed(n - 1), u, AfterFailures(c, p, n - 1));
      assert Counted(c, AfterFailures(c, p, n - 1)) == AfterFailures(c, p, n);
    }
  }

  lemma VolleyLeads(c: Config, row: UserRow, limit: nat, s: Sys, p: Point) returns (t: Sys)
    requires Matches(row, s, p) && p.lo == p.hi == 0 && 1 <= limit && (p.lock.Some? ==> p.lock.value <= p.now)
    requires c.maxFailures <= p.count + 1 && (p.count == 0 ==> p.now == 0)
    ensures Matches(row, t, Point(p.now, p.count + limit, p.now, Some(p.now + LockLength(c)), 0, 0))
    ensures Leads(c, limit, s, Begun(limit) + Failed(limit), t)
  {
    hide Leads, Matches;
    var u := BegunLeads(c, row, limit, s, p, limit);
    t := FailedLeads(c, row, limit, u, p.(hi := limit), limit);
    LeadsOn(c, limit, s, Begun(limit), u, Failed(limit), t);
    Renumbered(row, t, AfterFailures(c, p.(hi := limit), limit));
  }

  /** The time of q lock lengths. */
  function Lapses(c: Config, q: nat): nat {
    if q == 0 then 0 else Lapses(c, q - 1) + LockLength(c)
  }

  /** How many comparisons the volleys up to that time count. */
  function Tried(c: Config, limit: nat, q: nat): nat
    requires 0 < c.maxFailures
  {
    if q == 0 then c.maxFailures - 1 + limit else Tried(c, limit, q - 1) + limit
  }

  lemma {:induction false} Sums(c: Config, limit: nat, q: nat)
    requires 0 < c.maxFailures && 1 <= limit
    ensures c.maxFailures <= Tried(c, limit, q)
    ensures Lapses(c, q) == q * LockLength(c) && Tried(c, limit, q) == c.maxFailures - 1 + limit * (q + 1)
  {
    if 0 < q { Sums(c, limit, q - 1); }
  }

  function AfterVolleys(c: Config, limit: nat, q: nat): Point
    requires 0 < c.maxFailures
  {
    Point(Lapses(c, q), Tried(c, limit, q), Lapses(c, q), Some(Lapses(c, q) + LockLength(c)), 0, 0)
  }

  lemma FirstVolleyLeads(c: Config, row: UserRow, limit: nat) returns (t: Sys)
    requires Untried(row) && 1 <= limit && 0 < c.maxFailures
    ensures Matches(row, t, AfterVolleys(c, limit, 0)) && Leads(c, limit, Fresh(row), Volleys(c, limit, 0), t)
  {
    hide Leads, Matches;
    var u := AloneLeads(c, row, limit, c.maxFailures - 1);
    t := VolleyLeads(c, row, limit, u, Point(0, c.maxFailures - 1, 0, None, 0, 0));
    LeadsOn(c, limit, Fresh(row), Alone(c.maxFailures - 1), u, Begun(limit) + Failed(limit), t);
  }

  lemma NextVolleyLeads(c: Config, row: UserRow, limit: nat, s: Sys, q: nat) returns (t: Sys)
    requires 1 <= limit && 0 < c.maxFailures && Matches(row, s, AfterVolleys(c, limit, q))
    ensures Matches(row, t, AfterVolleys(c, limit, q + 1))
    ensures Leads(c, limit, s, [Tick(LockLength(c))] + (Begun(limit) + Failed(limit)), t)
  {
    hide Leads, Matches;
    Sums(c, limit, q);
    var p := AfterVolleys(c, limit, q);
    TickMoves(c, row, limit, s, LockLength(c), p);
    var u := Step(c, s, Tick(LockLength(c)));
    t := VolleyLeads(c, row, limit, u, p.(now := p.now + LockLength(c)));
    LeadsOn(c, limit, s, [Tick(LockLength(c))], u, Begun(limit) + Failed(limit), t);
  }

  lemma {:induction false} VolleysLead(c: Config, row: UserRow, limit: nat, q: nat) returns (t: Sys)
    requires Untried(row) && 1 <= limit && 0 < c.maxFailures
    ensures Matches(row, t, AfterVolleys(c, limit, q)) && Leads(c, limit, Fresh(row), Volleys(c, limit, q), t)
  {
    hide Leads, Matches;
    if q == 0 {
      t := FirstVolleyLeads(c, row, limit);
    } else {
      var u := VolleysLead(c, row, limit, q - 1);
      t := NextVolleyLeads(c, row, limit, u, q - 1);
      var volley := [Tick(LockLength(c))] + (Begun(limit) + Failed(limit));
      LeadsOn(c, limit, Fresh(row), Volleys(c, limit, q - 1), u, volley, t);
    }
  }

  lemma VolleysAreRun(c: Config, row: UserRow, limit: nat, q: nat)
    requires Untried(row) && 1 <= limit && 0 < c.maxFailures
    ensures AtMostInFlight(c, row, 0, Volleys(c, limit, q), limit)
    ensures Matches(row, Run(c, row, 0, Volleys(c, limit, q)), AfterVolleys(c, limit, q))
  {
    var t := VolleysLead(c, row, limit, q);
    LeadsFromStart(c, row, limit, Volleys(c, limit, q), t);
  }

  /** The whole sequence takes q lock lengths and is as long as the bound for that time. */
  predicate Meets(c: Config, limit: nat, q: nat, counted: seq<Count>)
    requires 0 < LockLength(c)
  {
    && counted != [] && counted[|counted| - 1].at - counted[0].at == q * LockLength(c)
    && |counted| == c.maxFailures - 1 + Allowance(limit, q * LockLength(c), LockLength(c))
  }

  lemma MeetsBound(c: Config, row: UserRow, limit: nat, q: nat, s: Sys)
    requires 1 <= limit && 0 < c.maxFailures && 0 < LockLength(c) && Matches(row, s, AfterVolleys(c, limit, q))
    ensures Meets(c, limit, q, s.counted)
  {
    Sums(c, limit, q);
    Multiple(q, LockLength(c));
  }

  /** For every limit, every lock and every number of lapses there is a run that counts exactly as many comparisons as
      the bound allows. */
  lemma RacingLockoutBoundIsAttained(c: Config, row: UserRow, limit: nat, q: nat)
    requires Untried(row) && 1 <= limit && 0 < c.maxFailures && 0 < LockLength(c)
    ensures AtMostInFlight(c, row, 0, Volleys(c, limit, q), limit)
    ensures Meets(c, limit, q, Run(c, row, 0, Volleys(c, limit, q)).counted)
  {
    VolleysAreRun(c, row, limit, q);
    MeetsBound(c, row, limit, q, Run(c, row, 0, Volleys(c, limit, q)));
  }
}
