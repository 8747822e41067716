/** One-time use of tokens: the replay stores of an application, why a bounded entry can be as good as an endless log,
    and exactly when it is not. */
module Replay {
  import opened Redis

  /** A token still verifies: exp has not passed by more than the clock tolerance. Seconds; now in milliseconds. */
  predicate Acceptable(exp: int, tolerance: int, now: int) {
    now / 1000 < exp + tolerance
  }

  /** claimJti's time to live, in seconds. */
  function ClaimTtl(exp: int, tolerance: int, now: int): int {
    var left := exp - now / 1000 + tolerance;
    if left < 1 then 1 else left
  }

  /** When the entry of a claim made now lapses. */
  function ClaimDeadline(exp: int, tolerance: int, now: int): int {
    now + ClaimTtl(exp, tolerance, now) * 1000
  }

  /** The end of the acceptance window: a token verifies strictly before it. */
  function WindowEnd(exp: int, tolerance: int): int {
    (exp + tolerance) * 1000
  }

  lemma AcceptableUntilWindowEnd(exp: int, tolerance: int, now: int)
    ensures Acceptable(exp, tolerance, now) <==> now < WindowEnd(exp, tolerance)
  {
  }

  /** A claim made within the window lapses within the second after its end: the second's fraction of the claim's own
      clock reading later. A claim made after it lapses a second later. */
  lemma ClaimCoversWindow(exp: int, tolerance: int, now: int)
    ensures ClaimDeadline(exp, tolerance, now)
            == if Acceptable(exp, tolerance, now) then WindowEnd(exp, tolerance) + now % 1000 else now + 1000
  {
    assert now == now / 1000 * 1000 + now % 1000;
  }

  /** A presentation of a token: the clock is read by the verification and again by the claim. */
  datatype Attempt = Attempt(key: string, exp: int, verifiedAt: int, claimedAt: int)

  predicate Verifies(tolerance: int, a: Attempt) {
    Acceptable(a.exp, tolerance, a.verifiedAt)
  }

  /** Claims in time order, each after its verification; a key names one token, which has one exp. */
  ghost predicate Orderly(attempts: seq<Attempt>) {
    && (forall i :: 0 <= i < |attempts| ==> attempts[i].verifiedAt <= attempts[i].claimedAt)
    && (forall i, j :: 0 <= i < j < |attempts| ==> attempts[i].claimedAt <= attempts[j].claimedAt)
    && (forall i, j :: 0 <= i < j < |attempts| && attempts[i].key == attempts[j].key ==>
         attempts[i].exp == attempts[j].exp)
  }

  // ---- the reference: an append-only log of claims ----

  /** The keys accepted so far, with the deadline that their first claim was given. */
  function Log(tolerance: int, attempts: seq<Attempt>): map<string, int> {
    if attempts == [] then map[] else
    var log, a := Log(tolerance, attempts[..|attempts| - 1]), attempts[|attempts| - 1];
    if Verifies(tolerance, a) && a.key !in log then log[a.key := ClaimDeadline(a.exp, tolerance, a.claimedAt)] else log
  }

  /** Whether the log accepts the last attempt. */
  predicate LogAccepts(tolerance: int, attempts: seq<Attempt>)
    requires attempts != []
  {
    var a := attempts[|attempts| - 1];
    Verifies(tolerance, a) && a.key !in Log(tolerance, attempts[..|attempts| - 1])
  }

  // ---- RedisReplayStore: SET NX EX ----

  function RedisClaim<K>(m: Store<K, ()>, key: K, ttl: int, now: int): (Store<K, ()>, bool) {
    if Live(m, key, now) then (m, false) else (SetEx(m, key, (), now, ttl), true)
  }

  function RedisState(tolerance: int, attempts: seq<Attempt>): Store<string, ()> {
    if attempts == [] then map[] else
    var m, a := RedisState(tolerance, attempts[..|attempts| - 1]), attempts[|attempts| - 1];
    if Verifies(tolerance, a) then RedisClaim(m, a.key, ClaimTtl(a.exp, tolerance, a.claimedAt), a.claimedAt).0 else m
  }

  predicate RedisAccepts(tolerance: int, attempts: seq<Attempt>)
    requires attempts != []
  {
    var a := attempts[|attempts| - 1];
    Verifies(tolerance, a) &&
    var state := RedisState(tolerance, attempts[..|attempts| - 1]);
    RedisClaim(state, a.key, ClaimTtl(a.exp, tolerance, a.claimedAt), a.claimedAt).1
  }

  // ---- MemoryReplayStore: a swept map ----

  function Swept(seen: map<string, int>, now: int): map<string, int> {
    map k | k in seen && now <= seen[k] :: seen[k]
  }

  function MemoryClaim(seen: map<string, int>, key: string, ttl: int, now: int): (map<string, int>, bool) {
    var kept := Swept(seen, now);
    if key in kept then (kept, false) else (kept[key := now + ttl * 1000], true)
  }

  function MemoryState(tolerance: int, attempts: seq<Attempt>): map<string, int> {
    if attempts == [] then map[] else
    var m, a := MemoryState(tolerance, attempts[..|attempts| - 1]), attempts[|attempts| - 1];
    if Verifies(tolerance, a) then MemoryClaim(m, a.key, ClaimTtl(a.exp, tolerance, a.claimedAt), a.claimedAt).0 else m
  }

  predicate MemoryAccepts(tolerance: int, attempts: seq<Attempt>)
    requires attempts != []
  {
    var a := attempts[|attempts| - 1];
    Verifies(tolerance, a) &&
    var state := MemoryState(tolerance, attempts[..|attempts| - 1]);
    MemoryClaim(state, a.key, ClaimTtl(a.exp, tolerance, a.claimedAt), a.claimedAt).1
  }

  class MemoryReplayStore {
    var seen: map<string, int>

    constructor ()
      ensures seen == map[]
    {
      seen := map[];
    }

    /** Sweeps every lapsed entry, then claims. */
    method Claim(key: string, ttl: int, now: int) returns (claimed: bool)
      modifies this
      ensures (seen, claimed) == MemoryClaim(old(seen), key, ttl, now)
    {
      var rest := seen.Keys;
      while rest != {}
        invariant rest <= seen.Keys <= old(seen).Keys
        invariant forall k :: k in seen ==> seen[k] == old(seen)[k]
        invariant forall k :: k in old(seen) && k !in rest ==> (k in seen <==> now <= old(seen)[k])
      {
        var k :| k in rest;
        rest := rest - {k};
        if seen[k] < now { seen := seen - {k}; }
      }
      assert seen == Swept(old(seen), now);
      if key in seen { return false; }
      seen := seen[key := now + ttl * 1000];
      return true;
    }
  }

  // ---- what both stores answer ----

  /** The two stores differ in one millisecond: Redis forgets an entry at its deadline, the map after it. */
  datatype Kind = RedisStore | MemoryStore

  predicate Lapsed(kind: Kind, deadline: int, now: int) {
    if kind == RedisStore then deadline <= now else deadline < now
  }

  predicate Accepts(kind: Kind, tolerance: int, attempts: seq<Attempt>)
    requires attempts != []
  {
    if kind == RedisStore then RedisAccepts(tolerance, attempts) else MemoryAccepts(tolerance, attempts)
  }

  /** The deadline of every key's latest accepted claim, as if nothing were ever forgotten. */
  function Latest(kind: Kind, tolerance: int, attempts: seq<Attempt>): map<string, int> {
    if attempts == [] then map[] else
    var latest, a := Latest(kind, tolerance, attempts[..|attempts| - 1]), attempts[|attempts| - 1];
    if Verifies(tolerance, a) && (a.key in latest ==> Lapsed(kind, latest[a.key], a.claimedAt))
    then latest[a.key := ClaimDeadline(a.exp, tolerance, a.claimedAt)] else latest
  }

  lemma {:induction false} RedisHoldsLatest(tolerance: int, attempts: seq<Attempt>)
    ensures var m, latest := RedisState(tolerance, attempts), Latest(RedisStore, tolerance, attempts);
            m.Keys == latest.Keys && forall k :: k in m ==> m[k].deadline == latest[k]
  {
    if attempts != [] { RedisHoldsLatest(tolerance, attempts[..|attempts| - 1]); }
  }

  /** The sweep only forgets lapsed entries. */
  lemma {:induction false} MemoryHoldsLatest(tolerance: int, attempts: seq<Attempt>, now: int)
    requires Orderly(attempts) && forall i :: 0 <= i < |attempts| ==> attempts[i].claimedAt <= now
    ensures var m, latest := MemoryState(tolerance, attempts), Latest(MemoryStore, tolerance, attempts);
            && m.Keys <= latest.Keys
            && forall k :: k in latest ==> if k in m then m[k] == latest[k] else latest[k] < now
  {
    if attempts != [] {
      var n := |attempts| - 1;
      MemoryHoldsLatest(tolerance, attempts[..n], attempts[n].claimedAt);
    }
  }

  /** Each store accepts exactly a token that verifies and whose latest accepted claim has lapsed. */
  lemma StoresAnswerFromLatest(kind: Kind, tolerance: int, attempts: seq<Attempt>)
    requires Orderly(attempts) && attempts != []
    ensures var latest, a := Latest(kind, tolerance, attempts[..|attempts| - 1]), attempts[|attempts| - 1];
            Accepts(kind, tolerance, attempts) <==>
              Verifies(tolerance, a) && (a.key in latest ==> Lapsed(kind, latest[a.key], a.claimedAt))
  {
    var n := |attempts| - 1;
    if kind == RedisStore {
      RedisHoldsLatest(tolerance, attempts[..n]);
    } else {
      MemoryHoldsLatest(tolerance, attempts[..n], attempts[n].claimedAt);
    }
  }

  // ---- when they agree with the log ----

  /** Attempt j verified in time, but claims when the entry of its token's first claim has lapsed. */
  predicate TooLate(kind: Kind, tolerance: int, attempts: seq<Attempt>, j: int)
    requires 0 <= j < |attempts|
  {
    var log, a := Log(tolerance, attempts[..j]), attempts[j];
    Verifies(tolerance, a) && a.key in log && Lapsed(kind, log[a.key], a.claimedAt)
  }

  ghost predicate NeverTooLate(kind: Kind, tolerance: int, attempts: seq<Attempt>) {
    forall j :: 0 <= j < |attempts| ==> !TooLate(kind, tolerance, attempts, j)
  }

  lemma NeverTooLatePrefix(kind: Kind, tolerance: int, attempts: seq<Attempt>, n: nat)
    requires NeverTooLate(kind, tolerance, attempts) && n <= |attempts|
    ensures NeverTooLate(kind, tolerance, attempts[..n])
  {
    forall j | 0 <= j < n ensures !TooLate(kind, tolerance, attempts[..n], j) {
      assert !TooLate(kind, tolerance, attempts, j);
      assert attempts[..n][..j] == attempts[..j];
    }
  }

  lemma {:induction false} LatestIsLog(kind: Kind, tolerance: int, attempts: seq<Attempt>)
    requires NeverTooLate(kind, tolerance, attempts)
    ensures Latest(kind, tolerance, attempts) == Log(tolerance, attempts)
  {
    if attempts != [] {
      var n := |attempts| - 1;
      NeverTooLatePrefix(kind, tolerance, attempts, n);
      LatestIsLog(kind, tolerance, attempts[..n]);
      assert !TooLate(kind, tolerance, attempts, n);
    }
  }

  ghost predicate AnswersAsLog(kind: Kind, tolerance: int, attempts: seq<Attempt>) {
    forall n :: 1 <= n <= |attempts| ==> Accepts(kind, tolerance, attempts[..n]) == LogAccepts(tolerance, attempts[..n])
  }

  lemma OrderlyPrefix(attempts: seq<Attempt>, n: nat)
    requires Orderly(attempts) && n <= |attempts|
    ensures Orderly(attempts[..n])
  {
  }

  /** The first claim that comes too late is accepted, although the log refuses it. */
  lemma {:induction false} TooLateIsAccepted(kind: Kind, tolerance: int, attempts: seq<Attempt>, j: nat)
    requires Orderly(attempts) && j < |attempts| && TooLate(kind, tolerance, attempts, j)
    ensures !AnswersAsLog(kind, tolerance, attempts)
    decreases j
  {
    if NeverTooLate(kind, tolerance, attempts[..j]) {
      LatestIsLog(kind, tolerance, attempts[..j]);
      OrderlyPrefix(attempts, j + 1);
      assert attempts[..j + 1][..j] == attempts[..j];
      StoresAnswerFromLatest(kind, tolerance, attempts[..j + 1]);
      assert Accepts(kind, tolerance, attempts[..j + 1]) && !LogAccepts(tolerance, attempts[..j + 1]);
    } else {
      var i :| 0 <= i < j && TooLate(kind, tolerance, attempts[..j], i);
      assert attempts[..j][..i] == attempts[..i];
      TooLateIsAccepted(kind, tolerance, attempts, i);
    }
  }

  /** On every run each store answers exactly as the append-only log if and only if no claim comes too late. */
  lemma StoresRefineLog(kind: Kind, tolerance: int, attempts: seq<Attempt>)
    requires Orderly(attempts)
    ensures AnswersAsLog(kind, tolerance, attempts) <==> NeverTooLate(kind, tolerance, attempts)
  {
    if NeverTooLate(kind, tolerance, attempts) {
      forall n | 1 <= n <= |attempts|
        ensures Accepts(kind, tolerance, attempts[..n]) == LogAccepts(tolerance, attempts[..n])
      {
        NeverTooLatePrefix(kind, tolerance, attempts, n - 1);
        LatestIsLog(kind, tolerance, attempts[..n - 1]);
        assert attempts[..n][..n - 1] == attempts[..n - 1] && attempts[..n][n - 1] == attempts[n - 1];
        OrderlyPrefix(attempts, n);
        StoresAnswerFromLatest(kind, tolerance, attempts[..n]);
        assert !TooLate(kind, tolerance, attempts, n - 1);
      }
    } else {
      var j :| 0 <= j < |attempts| && TooLate(kind, tolerance, attempts, j);
      TooLateIsAccepted(kind, tolerance, attempts, j);
    }
  }

  // ---- no token twice ----

  predicate AcceptedAt(kind: Kind, tolerance: int, attempts: seq<Attempt>, i: int) {
    0 <= i < |attempts| && Accepts(kind, tolerance, attempts[..i + 1])
  }

  ghost predicate AcceptsTwice(kind: Kind, tolerance: int, attempts: seq<Attempt>) {
    exists i, j ::
        i < j && AcceptedAt(kind, tolerance, attempts, i) && AcceptedAt(kind, tolerance, attempts, j)
        && attempts[i].key == attempts[j].key
  }

  /** A logged key was accepted by the log, at an attempt that gave it its deadline. */
  lemma {:induction false} LoggedBy(tolerance: int, attempts: seq<Attempt>, k: string) returns (i: nat)
    requires k in Log(tolerance, attempts)
    ensures i < |attempts| && attempts[i].key == k && LogAccepts(tolerance, attempts[..i + 1])
    ensures Log(tolerance, attempts)[k] == ClaimDeadline(attempts[i].exp, tolerance, attempts[i].claimedAt)
  {
    var n := |attempts| - 1;
    if k in Log(tolerance, attempts[..n]) {
      i := LoggedBy(tolerance, attempts[..n], k);
      assert attempts[..n][..i + 1] == attempts[..i + 1] && attempts[..n][i] == attempts[i];
    } else {
      i := n;
      assert attempts[..n + 1] == attempts;
    }
  }

  lemma {:induction false} LogGrows(tolerance: int, attempts: seq<Attempt>, i: nat)
    requires i <= |attempts|
    ensures Log(tolerance, attempts[..i]).Keys <= Log(tolerance, attempts).Keys
  {
    if i == |attempts| {
      assert attempts[..i] == attempts;
    } else {
      assert attempts[..|attempts| - 1][..i] == attempts[..i];
      LogGrows(tolerance, attempts[..|attempts| - 1], i);
    }
  }

  lemma LogAcceptsOnce(tolerance: int, attempts: seq<Attempt>, i: nat, j: nat)
    requires i < j < |attempts| && attempts[i].key == attempts[j].key && LogAccepts(tolerance, attempts[..i + 1])
    ensures !LogAccepts(tolerance, attempts[..j + 1])
  {
    assert attempts[..j + 1][..j] == attempts[..j] && attempts[..i + 1][..i] == attempts[..i];
    LogGrows(tolerance, attempts[..j], i + 1);
    assert attempts[..j][..i + 1] == attempts[..i + 1];
    assert attempts[i].key in Log(tolerance, attempts[..i + 1]);
  }

  lemma {:induction false} FirstTooLate(kind: Kind, tolerance: int, attempts: seq<Attempt>, j: nat) returns (i: nat)
    requires j < |attempts| && TooLate(kind, tolerance, attempts, j)
    ensures i <= j && TooLate(kind, tolerance, attempts, i) && NeverTooLate(kind, tolerance, attempts[..i])
    decreases j
  {
    if NeverTooLate(kind, tolerance, attempts[..j]) {
      i := j;
    } else {
      var h :| 0 <= h < j && TooLate(kind, tolerance, attempts[..j], h);
      assert attempts[..j][..h] == attempts[..h];
      i := FirstTooLate(kind, tolerance, attempts, h);
    }
  }

  /** The first too late claim is accepted, and so was the claim that logged its key. */
  lemma FirstTooLateAccepted(kind: Kind, tolerance: int, attempts: seq<Attempt>, n: nat)
    requires Orderly(attempts) && n < |attempts| && TooLate(kind, tolerance, attempts, n)
    requires NeverTooLate(kind, tolerance, attempts[..n])
    ensures AcceptedAt(kind, tolerance, attempts, n)
  {
    LatestIsLog(kind, tolerance, attempts[..n]);
    OrderlyPrefix(attempts, n + 1);
    assert attempts[..n + 1][..n] == attempts[..n];
    StoresAnswerFromLatest(kind, tolerance, attempts[..n + 1]);
  }

  lemma LoggedIsAccepted(kind: Kind, tolerance: int, attempts: seq<Attempt>, n: nat, k: string) returns (i: nat)
    requires Orderly(attempts) && n <= |attempts| && NeverTooLate(kind, tolerance, attempts[..n])
    requires k in Log(tolerance, attempts[..n])
    ensures i < n && attempts[i].key == k && AcceptedAt(kind, tolerance, attempts, i)
  {
    i := LoggedBy(tolerance, attempts[..n], k);
    OrderlyPrefix(attempts, n);
    StoresRefineLog(kind, tolerance, attempts[..n]);
    assert attempts[..n][..i + 1] == attempts[..i + 1] && attempts[..n][i] == attempts[i];
  }

  lemma TooLateIsTwice(kind: Kind, tolerance: int, attempts: seq<Attempt>, j: nat)
    requires Orderly(attempts) && j < |attempts| && TooLate(kind, tolerance, attempts, j)
    ensures AcceptsTwice(kind, tolerance, attempts)
  {
    var n := FirstTooLate(kind, tolerance, attempts, j);
    FirstTooLateAccepted(kind, tolerance, attempts, n);
    var i := LoggedIsAccepted(kind, tolerance, attempts, n, attempts[n].key);
  }

  /** Some token is accepted twice in a run, by either store, exactly when some claim comes too late. */
  lemma AcceptedTwiceExactlyWhen(kind: Kind, tolerance: int, attempts: seq<Attempt>)
    requires Orderly(attempts)
    ensures AcceptsTwice(kind, tolerance, attempts) <==> !NeverTooLate(kind, tolerance, attempts)
  {
    if NeverTooLate(kind, tolerance, attempts) {
      StoresRefineLog(kind, tolerance, attempts);
      forall i, j | i < j && AcceptedAt(kind, tolerance, attempts, i) && j < |attempts|
          && attempts[i].key == attempts[j].key
        ensures !AcceptedAt(kind, tolerance, attempts, j)
      {
        LogAcceptsOnce(tolerance, attempts, i, j);
      }
    } else {
      var j :| 0 <= j < |attempts| && TooLate(kind, tolerance, attempts, j);
      TooLateIsTwice(kind, tolerance, attempts, j);
    }
  }

  /** The first claim's entry reaches the end of the window, so a claim that comes too late comes past it. */
  lemma TooLateIsPastWindow(kind: Kind, tolerance: int, attempts: seq<Attempt>, j: nat)
    requires Orderly(attempts) && j < |attempts|
    ensures TooLate(kind, tolerance, attempts, j) ==>
        Lapsed(kind, WindowEnd(attempts[j].exp, tolerance), attempts[j].claimedAt)
  {
    if TooLate(kind, tolerance, attempts, j) {
      var i := LoggedBy(tolerance, attempts[..j], attempts[j].key);
      assert attempts[..j][i] == attempts[i] && attempts[i].exp == attempts[j].exp;
      ClaimCoversWindow(attempts[i].exp, tolerance, attempts[i].claimedAt);
      AcceptableUntilWindowEnd(attempts[i].exp, tolerance, attempts[i].claimedAt);
    }
  }

  /** Every claim is made while its token would still verify, as with one clock reading for both. */
  ghost predicate ClaimedInWindow(tolerance: int, attempts: seq<Attempt>) {
    forall i :: 0 <= i < |attempts| && Verifies(tolerance, attempts[i]) ==>
        Acceptable(attempts[i].exp, tolerance, attempts[i].claimedAt)
  }

  /** Claims made inside the window never collide, however long the run. */
  lemma AcceptedOnce(kind: Kind, tolerance: int, attempts: seq<Attempt>)
    requires Orderly(attempts) && ClaimedInWindow(tolerance, attempts)
    ensures !AcceptsTwice(kind, tolerance, attempts) && AnswersAsLog(kind, tolerance, attempts)
  {
    forall j | 0 <= j < |attempts| ensures !TooLate(kind, tolerance, attempts, j) {
      TooLateIsPastWindow(kind, tolerance, attempts, j);
      AcceptableUntilWindowEnd(attempts[j].exp, tolerance, attempts[j].claimedAt);
    }
    AcceptedTwiceExactlyWhen(kind, tolerance, attempts);
    StoresRefineLog(kind, tolerance, attempts);
  }

  // ---- how slow a claim may be ----

  ghost predicate Within(delay: int, attempts: seq<Attempt>) {
    forall i :: 0 <= i < |attempts| ==> attempts[i].claimedAt - attempts[i].verifiedAt <= delay
  }

  /** One presentation on a full second of the window, and one verified in its last millisecond and claimed delay
      later. */
  function Collision(exp: int, tolerance: int, delay: nat): seq<Attempt> {
    var w := WindowEnd(exp, tolerance);
    [Attempt("assertion:j", exp, w - 1000, w - 1000), Attempt("assertion:j", exp, w - 1, w - 1 + delay)]
  }

  lemma CollisionAccepted(kind: Kind, exp: int, tolerance: int, delay: nat)
    requires (if kind == RedisStore then 1 else 2) <= delay
    ensures Orderly(Collision(exp, tolerance, delay)) && Within(delay, Collision(exp, tolerance, delay))
    ensures AcceptsTwice(kind, tolerance, Collision(exp, tolerance, delay))
  {
    var attempts := Collision(exp, tolerance, delay);
    var w := WindowEnd(exp, tolerance);
    AcceptableUntilWindowEnd(exp, tolerance, w - 1000);
    AcceptableUntilWindowEnd(exp, tolerance, w - 1);
    ClaimCoversWindow(exp, tolerance, w - 1000);
    assert attempts[..1][..0] == [] && attempts[..1] == [attempts[0]];
    assert Log(tolerance, attempts[..1]) == map["assertion:j" := w];
    assert TooLate(kind, tolerance, attempts, 1);
    AcceptedTwiceExactlyWhen(kind, tolerance, attempts);
  }

  ghost predicate Collides(kind: Kind, tolerance: int, delay: nat) {
    exists attempts :: Orderly(attempts) && Within(delay, attempts) && AcceptsTwice(kind, tolerance, attempts)
  }

  /** If claims follow their verification by at most delay ms, some run accepts some token twice exactly when delay is
      at least 1 for the Redis store, 2 for the map: one clock reading for both is what one-time use needs. */
  lemma SlowClaimsCollide(kind: Kind, tolerance: int, delay: nat)
    ensures Collides(kind, tolerance, delay) <==> (if kind == RedisStore then 1 else 2) <= delay
  {
    if (if kind == RedisStore then 1 else 2) <= delay {
      CollisionAccepted(kind, 0, tolerance, delay);
    } else {
      forall attempts | Orderly(attempts) && Within(delay, attempts) ensures !AcceptsTwice(kind, tolerance, attempts) {
        PromptClaims(kind, tolerance, attempts, delay);
      }
    }
  }

  lemma PromptClaims(kind: Kind, tolerance: int, attempts: seq<Attempt>, delay: nat)
    requires Orderly(attempts) && Within(delay, attempts) && delay < (if kind == RedisStore then 1 else 2)
    ensures !AcceptsTwice(kind, tolerance, attempts)
  {
    forall j | 0 <= j < |attempts| ensures !TooLate(kind, tolerance, attempts, j) {
      TooLateIsPastWindow(kind, tolerance, attempts, j);
      AcceptableUntilWindowEnd(attempts[j].exp, tolerance, attempts[j].verifiedAt);
    }
    AcceptedTwiceExactlyWhen(kind, tolerance, attempts);
  }
}
