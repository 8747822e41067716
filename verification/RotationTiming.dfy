/** Rotation as a timed protocol: pods sign with a view of the keyset that is a little old, verifiers hold JWKS copies
    that are a little older, and tokens live for a while. All times are milliseconds unless named seconds. */
module RotationTiming {
  import opened Wrappers
  import opened Keyset
  import K = KeyStore

  /** How many requests had been saved by time v. */
  ghost function Upto(qs: seq<Request>, v: int): (n: nat)
    ensures n <= |qs|
    ensures n < |qs| ==> v < qs[n].now
  {
    if qs == [] then 0
    else if qs[|qs| - 1].now <= v then |qs|
    else Upto(qs[..|qs| - 1], v)
  }

  /** The keyset the provider holds at time v. */
  ghost function At(qs: seq<Request>, v: int): seq<Key> {
    After(qs[..Upto(qs, v)])
  }

  /** The operator's discipline: clocks in order, retire asks for at least m seconds, and a key is promoted at least
      refresh + cache after it was staged. */
  ghost predicate Schedule(qs: seq<Request>, refresh: nat, cache: nat, m: nat) {
    && InOrder(qs)
    && (forall i :: 0 <= i < |qs| && qs[i].action == Retire ==> m <= qs[i].minRetiringSeconds)
    && (forall i :: 0 <= i < |qs| ==> Distributed(qs, i, refresh, cache))
  }

  ghost predicate Distributed(qs: seq<Request>, i: int, refresh: nat, cache: nat)
    requires 0 <= i < |qs|
  {
    qs[i].action == Promote ==>
      var before := After(qs[..i]);
      forall n :: 0 <= n < |before| && before[n].status == NEXT ==> before[n].createdAt + refresh + cache <= qs[i].now
  }

  lemma UptoFacts(qs: seq<Request>, v: int)
    requires InOrder(qs)
    ensures forall i :: 0 <= i < Upto(qs, v) ==> qs[i].now <= v
    ensures forall i :: Upto(qs, v) <= i < |qs| ==> v < qs[i].now
  {
    if qs != [] && v < qs[|qs| - 1].now {
      UptoFacts(qs[..|qs| - 1], v);
    }
  }

  lemma SchedulePrefix(qs: seq<Request>, n: nat, refresh: nat, cache: nat, m: nat)
    requires Schedule(qs, refresh, cache, m) && n <= |qs|
    ensures Schedule(qs[..n], refresh, cache, m)
  {
    forall i | 0 <= i < n ensures Distributed(qs[..n], i, refresh, cache) {
      assert Distributed(qs, i, refresh, cache);
      assert qs[..n][..i] == qs[..i];
    }
  }

  lemma RotateRetires(ks: seq<Key>, q: Request, i: nat)
    requires Rotate(ks, q).Ok? && i < |ks| && ks[i].status == ACTIVE
    ensures var next := Rotate(ks, q).value;
            i < |next|
              && (next[i].status == ACTIVE || (next[i].status == RETIRING && next[i].retiringAt == Some(q.now)))
  {
  }

  /** A key that was ACTIVE and is now retiring or retired began retiring after the snapshot in which it was ACTIVE. */
  lemma {:induction false} RetiringBeganLater(qs: seq<Request>, n: nat, i: nat, u: int)
    requires n <= |qs| && i < |After(qs[..n])| && After(qs[..n])[i].status == ACTIVE
    requires forall j :: n <= j < |qs| ==> u < qs[j].now
    ensures i < |After(qs)| && Rank(ACTIVE) <= Rank(After(qs)[i].status)
    ensures Rank(RETIRING) <= Rank(After(qs)[i].status) <= Rank(RETIRED) ==>
        After(qs)[i].retiringAt.Some? && u < After(qs)[i].retiringAt.value
  {
    hide Rotate;
    if n == |qs| {
      assert qs[..n] == qs;
    } else {
      var front, q := qs[..|qs| - 1], qs[|qs| - 1];
      assert front[..n] == qs[..n];
      RetiringBeganLater(front, n, i, u);
      if Rotate(After(front), q).Ok? {
        RotateEvolves(After(front), q);
        if After(front)[i].status == ACTIVE { RotateRetires(After(front), q, i); }
      }
    }
  }

  /** A key that is not in an earlier snapshot was created after it. */
  lemma {:induction false} BornLater(qs: seq<Request>, n: nat, i: nat, v: int)
    requires n <= |qs| && |After(qs[..n])| <= i
    requires forall j :: n <= j < |qs| ==> v < qs[j].now
    ensures i < |After(qs)| ==> v < After(qs)[i].createdAt
  {
    if n == |qs| {
      assert qs[..n] == qs;
    } else {
      var front, q := qs[..|qs| - 1], qs[|qs| - 1];
      assert front[..n] == qs[..n];
      BornLater(front, n, i, v);
      if Rotate(After(front), q).Ok? { RotateEvolves(After(front), q); }
    }
  }

  lemma PromotedInTime(qs: seq<Request>, i: nat, refresh: nat, cache: nat, m: nat)
    requires qs != [] && Schedule(qs, refresh, cache, m) && i < |After(qs[..|qs| - 1])| <= |After(qs)|
    requires After(qs[..|qs| - 1])[i].status == NEXT && After(qs)[i].status != NEXT
    ensures After(qs)[i].activatedAt.Some? && After(qs)[i].createdAt + refresh + cache <= After(qs)[i].activatedAt.value
  {
    var front, q := qs[..|qs| - 1], qs[|qs| - 1];
    assert Distributed(qs, |qs| - 1, refresh, cache);
    if Rotate(After(front), q).Ok? { RotateEvolves(After(front), q); }
  }

  /** Every key but the bootstrap key was published for refresh + cache before it began to sign. */
  lemma {:induction false} PublishedBeforeSigning(qs: seq<Request>, i: nat, refresh: nat, cache: nat, m: nat)
    requires Schedule(qs, refresh, cache, m) && 1 <= i < |After(qs)| && After(qs)[i].status != NEXT
    ensures After(qs)[i].activatedAt.Some? && After(qs)[i].createdAt + refresh + cache <= After(qs)[i].activatedAt.value
  {
    hide Schedule, Distributed, Rank;
    var front, q := qs[..|qs| - 1], qs[|qs| - 1];
    var before := After(front);
    SchedulePrefix(qs, |qs| - 1, refresh, cache, m);
    if !Rotate(before, q).Ok? {
      PublishedBeforeSigning(front, i, refresh, cache, m);
    } else {
      RotateEvolves(before, q);
      assert i < |before|;
      if before[i].status == NEXT {
        PromotedInTime(qs, i, refresh, cache, m);
      } else {
        PublishedBeforeSigning(front, i, refresh, cache, m);
      }
    }
  }

  lemma {:induction false} StatusesAreKnown(qs: seq<Request>, i: nat)
    requires i < |After(qs)|
    ensures Rank(After(qs)[i].status) <= Rank(RETIRED)
  {
    AfterIsValid(qs);
    assert KeyOk(After(qs)[i]);
  }

  /** Token issued at s by a pod that loaded the keyset at u; at t someone verifies it with a JWKS copy that a pod
      served from the keyset it loaded at v. */
  datatype Use = Use(s: int, u: int, t: int, v: int)

  ghost predicate Timely(qs: seq<Request>, refresh: nat, cache: nat, life: nat, x: Use) {
    && x.s - refresh <= x.u <= x.s && x.s <= x.t <= x.s + life && x.t - cache - refresh <= x.v <= x.t
    && At(qs, x.u) != [] && At(qs, x.v) != []
  }

  /** The signing kid of the pod is in the verifier's copy. */
  ghost predicate Verifiable(qs: seq<Request>, x: Use) {
    exists a, b ::
        a in At(qs, x.u) && a.status == ACTIVE && b in At(qs, x.v) && IsPublished(b) && b.kid == a.kid
        && b.material == a.material
  }

  /** The verifier's copy is at least as new as the signer's view. */
  lemma NewerCopy(qs: seq<Request>, refresh: nat, cache: nat, m: nat, life: nat, x: Use, i: nat)
    requires Schedule(qs, refresh, cache, m) && life + refresh <= m * 1000 && Timely(qs, refresh, cache, life, x)
    requires Upto(qs, x.u) <= Upto(qs, x.v) && i < |At(qs, x.u)| && At(qs, x.u)[i].status == ACTIVE
    ensures i < |At(qs, x.v)| && IsPublished(At(qs, x.v)[i]) && Descends(At(qs, x.u)[i], At(qs, x.v)[i])
  {
    hide After, Upto;
    var nu, nv := Upto(qs, x.u), Upto(qs, x.v);
    var upto := qs[..nv];
    UptoFacts(qs, x.u);
    UptoFacts(qs, x.v);
    assert upto[..nu] == qs[..nu];
    HistoryOnlyGrows(upto, nu);
    RetiringBeganLater(upto, nu, i, x.u);
    StatusesAreKnown(upto, i);
    RunIsSound(upto, m, x.v);
    assert Stamped(After(upto)[i], x.v, m);
  }

  /** The verifier's copy is older than the signer's view. */
  lemma OlderCopy(qs: seq<Request>, refresh: nat, cache: nat, m: nat, life: nat, x: Use, i: nat)
    requires Schedule(qs, refresh, cache, m) && Timely(qs, refresh, cache, life, x)
    requires Upto(qs, x.v) < Upto(qs, x.u) && i < |At(qs, x.u)| && At(qs, x.u)[i].status == ACTIVE
    ensures i < |At(qs, x.v)| && IsPublished(At(qs, x.v)[i]) && Descends(At(qs, x.v)[i], At(qs, x.u)[i])
  {
    var nu, nv := Upto(qs, x.u), Upto(qs, x.v);
    var upto := qs[..nu];
    UptoFacts(qs, x.u);
    UptoFacts(qs, x.v);
    assert upto[..nv] == qs[..nv];
    HistoryOnlyGrows(upto, nv);
    RunIsSound(upto, m, x.u);
    assert Stamped(After(upto)[i], x.u, m);
    SchedulePrefix(qs, nu, refresh, cache, m);
    if i >= |At(qs, x.v)| {
      BornLater(upto, nv, i, x.v);
      PublishedBeforeSigning(upto, i, refresh, cache, m);
    } else {
      StatusesAreKnown(qs[..nv], i);
    }
  }

  /** Rotation never strands a token: with views at most refresh old, copies at most cache old, promotion delayed by
      their sum, and token life plus refresh within the retirement minimum, the signing kid is in every copy for the
      whole life of the token. */
  lemma NeverStranded(qs: seq<Request>, refresh: nat, cache: nat, m: nat, life: nat, x: Use)
    requires Schedule(qs, refresh, cache, m) && life + refresh <= m * 1000 && Timely(qs, refresh, cache, life, x)
    ensures Verifiable(qs, x)
  {
    AfterIsValid(qs[..Upto(qs, x.u)]);
    K.ValidHasActive(At(qs, x.u));
    var i :| 0 <= i < |At(qs, x.u)| && At(qs, x.u)[i].status == ACTIVE;
    if Upto(qs, x.u) <= Upto(qs, x.v) {
      NewerCopy(qs, refresh, cache, m, life, x, i);
    } else {
      OlderCopy(qs, refresh, cache, m, life, x, i);
    }
    assert At(qs, x.u)[i] in At(qs, x.u) && At(qs, x.v)[i] in At(qs, x.v);
  }

  // ---- the bound is exact ----

  const A := Key("miqaat-key-a", "RS256", ACTIVE, 0, Some(0), None, None, Material(1, 3072))
  const B := Key("miqaat-key-b", "RS256", NEXT, 0, None, None, None, Material(2, 3072))

  function Generated(): Request { Request(Generate, 0, 0, A.kid, A.material) }
  function Staged(): Request { Request(Stage, 0, 0, B.kid, B.material) }
  function Promotion(p: int): Request { Request(Promote, p, 0, "", Material(0, 0)) }
  function Retirement(p: int, m: nat): Request { Request(Retire, p + m * 1000, m, "", Material(0, 0)) }

  lemma TwoKeysValid(a: Key, b: Key)
    requires a.kid == A.kid && b.kid == B.kid && KeyOk(a) && KeyOk(b)
    requires (a.status == ACTIVE && b.status == NEXT)
        || ((a.status == RETIRING || a.status == RETIRED) && b.status == ACTIVE)
    ensures Valid([a, b])
  {
    assert [a, b][..1] == [a] && [a][..0] == [];
    forall s ensures Count([a, b], s) == (if a.status == s then 1 else 0) + if b.status == s then 1 else 0 {
      assert Count([a], s) == Count([], s) + if a.status == s then 1 else 0;
      assert Count([a, b], s) == Count([a], s) + if b.status == s then 1 else 0;
    }
    assert A.kid[11] != B.kid[11];
  }

  lemma OneKeyValid(a: Key)
    requires KeyOk(a) && a.status == ACTIVE
    ensures Valid([a])
  {
    assert [a][..0] == [];
    forall s ensures Count([a], s) == if a.status == s then 1 else 0 {
      assert Count([a], s) == Count([], s) + if a.status == s then 1 else 0;
    }
  }

  lemma KidsOk()
    ensures KeyOk(A) && KeyOk(B)
  {
  }

  /** A bootstrap key, a staged key, a promotion at p and a retirement m seconds later. */
  lemma FullRotation(p: nat, m: nat)
    ensures var qs := [Generated(), Staged(), Promotion(p), Retirement(p, m)];
            && After(qs[..1]) == [A] && After(qs[..2]) == [A, B]
            && After(qs[..3]) == [Demoted(A, p), Promoted(B, p)]
            && After(qs[..4]) == [Retired(Demoted(A, p), p + m * 1000, m), Promoted(B, p)]
            && Retired(Demoted(A, p), p + m * 1000, m).status == RETIRED
  {
    var qs := [Generated(), Staged(), Promotion(p), Retirement(p, m)];
    KidsOk();
    assert qs[..1][..0] == [] && qs[..2][..1] == qs[..1] && qs[..3][..2] == qs[..2] && qs[..4][..3] == qs[..3];
    OneKeyValid(A);
    TwoKeysValid(A, B);
    assert After(qs[..1]) == [A];
    assert !Has([A], NEXT) && [A] + [B] == [A, B];
    assert After(qs[..2]) == [A, B];
    PromotionStep(p);
    assert After(qs[..3]) == [Demoted(A, p), Promoted(B, p)];
    RetirementStep(p, m);
  }

  lemma PromotionStep(p: nat)
    ensures Rotate([A, B], Promotion(p)) == Ok([Demoted(A, p), Promoted(B, p)])
  {
    KidsOk();
    assert [A, B][1].status == NEXT;
    assert Has([A, B], NEXT) && FirstNext([A, B]) == 1;
    TwoKeysValid(Demoted(A, p), Promoted(B, p));
    assert Candidate([A, B], Promotion(p)).value == [Demoted(A, p), Promoted(B, p)];
  }

  lemma RetirementStep(p: nat, m: nat)
    ensures var a := Retired(Demoted(A, p), p + m * 1000, m);
            a.status == RETIRED && Rotate([Demoted(A, p), Promoted(B, p)], Retirement(p, m)) == Ok([a, Promoted(B, p)])
  {
    KidsOk();
    var a := Retired(Demoted(A, p), p + m * 1000, m);
    TwoKeysValid(a, Promoted(B, p));
    assert Candidate([Demoted(A, p), Promoted(B, p)], Retirement(p, m)).value == [a, Promoted(B, p)];
  }

  function FourSteps(p: nat, m: nat): seq<Request> {
    [Generated(), Staged(), Promotion(p), Retirement(p, m)]
  }

  lemma FourStepsDistributed(refresh: nat, cache: nat, m: nat, i: nat)
    requires i < 4
    ensures Distributed(FourSteps(refresh + cache + 1, m), i, refresh, cache)
  {
    var p := refresh + cache + 1;
    if i == 2 {
      FullRotation(p, m);
      assert After(FourSteps(p, m)[..2]) == [A, B];
    }
  }

  lemma FourStepsScheduled(refresh: nat, cache: nat, m: nat)
    ensures Schedule(FourSteps(refresh + cache + 1, m), refresh, cache, m)
  {
    hide Distributed;
    var qs := FourSteps(refresh + cache + 1, m);
    forall i | 0 <= i < 4 ensures Distributed(qs, i, refresh, cache) { FourStepsDistributed(refresh, cache, m, i); }
  }

  lemma FourStepsSeen(p: nat, m: nat, v: int)
    requires 0 < p
    ensures At(FourSteps(p, m), p - 1) == [A, B]
    ensures p + m * 1000 <= v ==> At(FourSteps(p, m), v) == [Retired(Demoted(A, p), p + m * 1000, m), Promoted(B, p)]
  {
    var qs := FourSteps(p, m);
    FullRotation(p, m);
    assert qs[..4] == qs && qs[..3][..2] == qs[..2];
    assert Upto(qs[..2], p - 1) == 2;
    assert Upto(qs[..3], p - 1) == Upto(qs[..2], p - 1);
    assert Upto(qs, p - 1) == Upto(qs[..3], p - 1);
  }

  /** A pod signs with the view it had just before the promotion, as late as a view may be used; a verifier looks at the
      time of the retirement, or at once if that has passed. */
  function LateUse(refresh: nat, cache: nat, m: nat): Use {
    var p := refresh + cache + 1;
    var s := p - 1 + refresh;
    var t := if s < p + m * 1000 then p + m * 1000 else s;
    Use(s, p - 1, t, t)
  }

  lemma LateUseIsTimely(refresh: nat, cache: nat, m: nat, life: nat)
    requires m * 1000 < life + refresh
    ensures Timely(FourSteps(refresh + cache + 1, m), refresh, cache, life, LateUse(refresh, cache, m))
  {
    FourStepsSeen(refresh + cache + 1, m, LateUse(refresh, cache, m).v);
  }

  lemma LateUseFails(refresh: nat, cache: nat, m: nat)
    ensures !Verifiable(FourSteps(refresh + cache + 1, m), LateUse(refresh, cache, m))
  {
    hide At, Rotate, FourSteps;
    var p := refresh + cache + 1;
    FourStepsSeen(p, m, LateUse(refresh, cache, m).v);
    RetirementStep(p, m);
    assert A.kid[11] != B.kid[11];
    assert A in [A, B] && A.status == ACTIVE;
  }

  /** A token that outlives the retirement minimum less the refresh interval can be stranded. */
  lemma CanBeStranded(refresh: nat, cache: nat, m: nat, life: nat) returns (qs: seq<Request>, x: Use)
    requires m * 1000 < life + refresh
    ensures Schedule(qs, refresh, cache, m) && Timely(qs, refresh, cache, life, x) && !Verifiable(qs, x)
  {
    qs, x := FourSteps(refresh + cache + 1, m), LateUse(refresh, cache, m);
    FourStepsScheduled(refresh, cache, m);
    LateUseIsTimely(refresh, cache, m, life);
    LateUseFails(refresh, cache, m);
  }

  ghost predicate Strands(refresh: nat, cache: nat, m: nat, life: nat) {
    exists qs, x :: Schedule(qs, refresh, cache, m) && Timely(qs, refresh, cache, life, x) && !Verifiable(qs, x)
  }

  /** Some rotation can strand a token exactly when its life and the refresh interval together exceed the retirement
      minimum, whatever the cache age. */
  lemma StrandsExactlyWhen(refresh: nat, cache: nat, m: nat, life: nat)
    ensures Strands(refresh, cache, m, life) <==> m * 1000 < life + refresh
  {
    if m * 1000 < life + refresh {
      var qs, x := CanBeStranded(refresh, cache, m, life);
    } else {
      forall qs, x | Schedule(qs, refresh, cache, m) && Timely(qs, refresh, cache, life, x) ensures Verifiable(qs, x) {
        NeverStranded(qs, refresh, cache, m, life, x);
      }
    }
  }

  /** The default of the rotation script, in seconds. */
  function DefaultMinRetiring(assertionTtl: nat, refreshInterval: nat): nat {
    var sum := assertionTtl + refreshInterval + 300;
    if sum < 3600 then 3600 else sum
  }

  /** With the script's default no login assertion is ever stranded, not even by a verifier that tolerates up to 300
      seconds past expiry; an access token can be stranded exactly when its life and the refresh interval exceed that
      default. */
  lemma DefaultMinimumCoversAssertions(assertionTtl: nat, accessTtl: nat, refreshInterval: nat, cacheAge: nat,
      tolerance: nat)
    requires tolerance <= 300
    ensures var m := DefaultMinRetiring(assertionTtl, refreshInterval);
            && !Strands(refreshInterval * 1000, cacheAge * 1000, m, (assertionTtl + tolerance) * 1000)
            && (Strands(refreshInterval * 1000, cacheAge * 1000, m, accessTtl * 1000) <==>
                 3600 < accessTtl + refreshInterval && assertionTtl + 300 < accessTtl)
  {
    var m := DefaultMinRetiring(assertionTtl, refreshInterval);
    StrandsExactlyWhen(refreshInterval * 1000, cacheAge * 1000, m, (assertionTtl + tolerance) * 1000);
    StrandsExactlyWhen(refreshInterval * 1000, cacheAge * 1000, m, accessTtl * 1000);
  }
}
