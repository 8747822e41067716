/** The signing keyset: its validity, what is published, and the rotation state machine. */
module Keyset {
  import opened Wrappers

  /** Other holds any text the stored JSON might carry instead of a known status. */
  datatype Status = NEXT | ACTIVE | RETIRING | RETIRED | Other(text: string)

  /** A private key, identified by id, with its RSA modulus length. */
  datatype Material = Material(id: nat, bits: nat)

  datatype Key = Key(kid: string, alg: string, status: Status, createdAt: int,
                     activatedAt: Option<int>, retiringAt: Option<int>, retiredAt: Option<int>, material: Material)

  const MIN_RSA_BITS := 2048

  predicate KidChar(c: char) {
    'A' <= c <= 'Z' || 'a' <= c <= 'z' || '0' <= c <= '9' || c == '.' || c == '_' || c == '-'
  }

  /** KID_PATTERN */
  predicate KidOk(kid: string) {
    8 <= |kid| <= 128 && forall i :: 0 <= i < |kid| ==> KidChar(kid[i])
  }

  predicate KeyOk(k: Key) {
    && KidOk(k.kid) && k.alg == "RS256" && !k.status.Other?
    && (k.status != RETIRED ==> MIN_RSA_BITS <= k.material.bits)
  }

  ghost predicate DistinctKids(ks: seq<Key>) {
    forall i, j :: 0 <= i < j < |ks| ==> ks[i].kid != ks[j].kid
  }

  function Count(ks: seq<Key>, s: Status): nat {
    if ks == [] then 0 else Count(ks[..|ks| - 1], s) + if ks[|ks| - 1].status == s then 1 else 0
  }

  ghost predicate Valid(ks: seq<Key>) {
    && (forall i :: 0 <= i < |ks| ==> KeyOk(ks[i])) && DistinctKids(ks)
    && Count(ks, ACTIVE) == 1 && Count(ks, NEXT) <= 1
  }

  lemma {:induction false} CountZero(ks: seq<Key>, s: Status)
    ensures Count(ks, s) == 0 <==> forall i :: 0 <= i < |ks| ==> ks[i].status != s
  {
    if ks != [] { CountZero(ks[..|ks| - 1], s); }
  }

  /** At most one key has the status exactly when no two positions do. */
  lemma {:induction false} CountAtMostOne(ks: seq<Key>, s: Status)
    ensures Count(ks, s) <= 1 <==> forall i, j :: 0 <= i < j < |ks| ==> ks[i].status != s || ks[j].status != s
  {
    if ks != [] {
      CountAtMostOne(ks[..|ks| - 1], s);
      CountZero(ks[..|ks| - 1], s);
    }
  }

  // ---- validateKeyset ----

  datatype Fault =
    | BadKid(kid: string) | DuplicateKid(kid: string) | WrongAlg(kid: string) | BadStatus(kid: string)
    | TooSmall(kid: string, bits: nat) | ActiveCount(found: nat) | NextCount(found: nat)

  /** What each complaint means. */
  ghost predicate Explains(ks: seq<Key>, f: Fault) {
    match f
    case BadKid(kid) => !KidOk(kid) && exists k :: k in ks && k.kid == kid
    case DuplicateKid(kid) => exists i, j :: 0 <= i < j < |ks| && ks[i].kid == ks[j].kid == kid
    case WrongAlg(kid) => exists k :: k in ks && k.kid == kid && k.alg != "RS256"
    case BadStatus(kid) => exists k :: k in ks && k.kid == kid && k.status.Other?
    case TooSmall(kid, bits) =>
      bits < MIN_RSA_BITS && exists k :: k in ks && k.kid == kid && k.status != RETIRED && k.material.bits == bits
    case ActiveCount(found) => found == Count(ks, ACTIVE) != 1
    case NextCount(found) => found == Count(ks, NEXT) > 1
  }

  /** A valid keyset has one ACTIVE key and at most one NEXT key, no kid twice, well-formed kids, RS256 keys with known
      statuses, and at least 2048 bits wherever a key is still in use. */
  lemma ValidMeans(ks: seq<Key>)
    ensures Valid(ks) <==>
              && (forall k :: k in ks ==>
                    && 8 <= |k.kid| <= 128 && (forall i :: 0 <= i < |k.kid| ==> KidChar(k.kid[i]))
                    && k.alg == "RS256" && k.status in {NEXT, ACTIVE, RETIRING, RETIRED}
                    && (k.status in {NEXT, ACTIVE, RETIRING} ==> 2048 <= k.material.bits))
              && (forall i, j :: 0 <= i < j < |ks| ==> ks[i].kid != ks[j].kid)
              && (exists i :: 0 <= i < |ks| && ks[i].status == ACTIVE)
              && (forall i, j :: 0 <= i < j < |ks| && ks[i].status == ACTIVE ==> ks[j].status != ACTIVE)
              && (forall i, j :: 0 <= i < j < |ks| && ks[i].status == NEXT ==> ks[j].status != NEXT)
  {
    CountZero(ks, ACTIVE);
    CountAtMostOne(ks, ACTIVE);
    CountAtMostOne(ks, NEXT);
    assert (forall k :: k in ks ==> KeyOk(k)) <==> forall i :: 0 <= i < |ks| ==> KeyOk(ks[i]);
  }

  method ValidateKeyset(ks: seq<Key>) returns (fault: Option<Fault>)
    ensures fault.None? <==> Valid(ks)
    ensures fault.Some? ==> Explains(ks, fault.value)
  {
    hide KidOk, Count;
    var kids: set<string> := {};
    for i := 0 to |ks|
      invariant forall j :: 0 <= j < i ==> KeyOk(ks[j]) && ks[j].kid in kids
      invariant forall kid :: kid in kids ==> exists j :: 0 <= j < i && ks[j].kid == kid
      invariant DistinctKids(ks[..i])
    {
      var key := ks[i];
      if !KidOk(key.kid) { return Some(BadKid(key.kid)); }
      if key.kid in kids {
        ghost var j :| 0 <= j < i && ks[j].kid == key.kid;
        return Some(DuplicateKid(key.kid));
      }
      kids := kids + {key.kid};
      if key.alg != "RS256" { return Some(WrongAlg(key.kid)); }
      if key.status.Other? { return Some(BadStatus(key.kid)); }
      if key.status != RETIRED && key.material.bits < MIN_RSA_BITS {
        return Some(TooSmall(key.kid, key.material.bits));
      }
    }
    assert ks[..|ks|] == ks;
    var active := Count(ks, ACTIVE);
    if active != 1 { return Some(ActiveCount(active)); }
    var staged := Count(ks, NEXT);
    if staged > 1 { return Some(NextCount(staged)); }
    return None;
  }

  // ---- publishedKeys ----

  predicate IsPublished(k: Key) {
    k.status == NEXT || k.status == ACTIVE || k.status == RETIRING
  }

  function Published(ks: seq<Key>): seq<Key> {
    if ks == [] then [] else Published(ks[..|ks| - 1]) + if IsPublished(ks[|ks| - 1]) then [ks[|ks| - 1]] else []
  }

  lemma {:induction false} PublishedIffStatus(ks: seq<Key>, k: Key)
    ensures k in Published(ks) <==> k in ks && IsPublished(k)
  {
    if ks != [] {
      PublishedIffStatus(ks[..|ks| - 1], k);
      assert ks == ks[..|ks| - 1] + [ks[|ks| - 1]];
    }
  }

  // ---- rotateKeyset ----

  datatype Action = Generate | Stage | Promote | Retire

  datatype RotationError = AlreadyExists | AlreadyStaged | NothingStaged | Rejected

  function NewKey(status: Status, kid: string, material: Material, now: int): Key {
    Key(kid, "RS256", status, now, if status == ACTIVE then Some(now) else None, None, None, material)
  }

  predicate Has(ks: seq<Key>, s: Status) {
    exists i :: 0 <= i < |ks| && ks[i].status == s
  }

  /** The position of the first NEXT key. */
  function FirstNext(ks: seq<Key>): (n: nat)
    requires Has(ks, NEXT)
    ensures n < |ks| && ks[n].status == NEXT && forall i :: 0 <= i < n ==> ks[i].status != NEXT
  {
    if ks[0].status == NEXT then 0 else
    assert ks == [ks[0]] + ks[1..];
    FirstNext(ks[1..]) + 1
  }

  function Demoted(k: Key, now: int): Key {
    if k.status == ACTIVE then k.(status := RETIRING, retiringAt := Some(now)) else k
  }

  function Promoted(k: Key, now: int): Key {
    k.(status := ACTIVE, activatedAt := Some(now))
  }

  predicate RetirementDue(k: Key, now: int, minRetiringSeconds: int) {
    k.status == RETIRING && k.retiringAt.Some? && minRetiringSeconds * 1000 <= now - k.retiringAt.value
  }

  function Retired(k: Key, now: int, minRetiringSeconds: int): Key {
    if RetirementDue(k, now, minRetiringSeconds) then k.(status := RETIRED, retiredAt := Some(now)) else k
  }

  /** One rotation request: kid and material are those of the key it may generate. */
  datatype Request = Request(action: Action, now: int, minRetiringSeconds: int, kid: string, material: Material)

  /** The keyset before validation. */
  function Candidate(ks: seq<Key>, q: Request): Result<seq<Key>, RotationError> {
    match q.action
    case Generate => if |ks| > 0 then Err(AlreadyExists) else Ok([NewKey(ACTIVE, q.kid, q.material, q.now)])
    case Stage => if Has(ks, NEXT) then Err(AlreadyStaged) else Ok(ks + [NewKey(NEXT, q.kid, q.material, q.now)])
    case Promote =>
      if !Has(ks, NEXT) then Err(NothingStaged) else
      var n := FirstNext(ks);
      Ok(seq(|ks|, i requires 0 <= i < |ks| => if i == n then Promoted(ks[i], q.now) else Demoted(ks[i], q.now)))
    case Retire => Ok(seq(|ks|, i requires 0 <= i < |ks| => Retired(ks[i], q.now, q.minRetiringSeconds)))
  }

  ghost function Rotate(ks: seq<Key>, q: Request): Result<seq<Key>, RotationError> {
    var c := Candidate(ks, q);
    if c.Ok? && !Valid(c.value) then Err(Rejected) else c
  }

  /** The three refusals, exactly. Anything else is rejected only by validation. */
  lemma RotateRefuses(ks: seq<Key>, q: Request)
    ensures Rotate(ks, q) == Err(AlreadyExists) <==> q.action == Generate && ks != []
    ensures Rotate(ks, q) == Err(AlreadyStaged) <==> q.action == Stage && exists k :: k in ks && k.status == NEXT
    ensures Rotate(ks, q) == Err(NothingStaged) <==> q.action == Promote && !exists k :: k in ks && k.status == NEXT
  {
    assert (exists k :: k in ks && k.status == NEXT) <==> Has(ks, NEXT) by {
      if Has(ks, NEXT) { var i :| 0 <= i < |ks| && ks[i].status == NEXT; assert ks[i] in ks; }
    }
  }

  lemma {:induction false} CountSame(a: seq<Key>, b: seq<Key>, s: Status)
    requires |a| == |b| && forall i :: 0 <= i < |a| ==> (a[i].status == s <==> b[i].status == s)
    ensures Count(a, s) == Count(b, s)
  {
    if a != [] { CountSame(a[..|a| - 1], b[..|b| - 1], s); }
  }

  lemma RetireSucceeds(ks: seq<Key>, q: Request)
    requires Valid(ks) && q.action == Retire
    ensures Rotate(ks, q).Ok?
  {
    var next := Candidate(ks, q).value;
    forall i | 0 <= i < |ks| ensures KeyOk(next[i]) && next[i].kid == ks[i].kid { assert KeyOk(ks[i]); }
    CountSame(ks, next, ACTIVE);
    CountSame(ks, next, NEXT);
  }

  lemma PromoteSucceeds(ks: seq<Key>, q: Request)
    requires Valid(ks) && q.action == Promote && Has(ks, NEXT)
    ensures Rotate(ks, q).Ok?
  {
    var next, n := Candidate(ks, q).value, FirstNext(ks);
    CountAtMostOne(ks, NEXT);
    forall i | 0 <= i < |ks|
      ensures KeyOk(next[i]) && next[i].kid == ks[i].kid
      ensures next[i].status != NEXT && (next[i].status == ACTIVE <==> i == n)
    {
      assert KeyOk(ks[i]);
    }
    CountZero(next, NEXT);
    CountZero(next, ACTIVE);
    CountAtMostOne(next, ACTIVE);
    assert next[n].status == ACTIVE;
  }

  lemma LastIsOwn(ks: seq<Key>, k: Key)
    requires Valid(ks + [k])
    ensures KeyOk(k) && forall x :: x in ks ==> x.kid != k.kid
  {
    var next := ks + [k];
    assert KeyOk(next[|ks|]);
    forall x | x in ks ensures x.kid != k.kid {
      var i :| 0 <= i < |ks| && ks[i] == x;
      assert next[i].kid != next[|ks|].kid;
    }
  }

  lemma StageSucceeds(ks: seq<Key>, q: Request)
    requires Valid(ks) && q.action == Stage && !Has(ks, NEXT)
    ensures Rotate(ks, q).Ok? <==> KidOk(q.kid) && 2048 <= q.material.bits && forall k :: k in ks ==> k.kid != q.kid
  {
    var k := NewKey(NEXT, q.kid, q.material, q.now);
    var next := ks + [k];
    assert next[..|ks|] == ks && next[|ks|] == k;
    assert Count(next, ACTIVE) == Count(ks, ACTIVE);
    CountZero(ks, NEXT);
    assert Count(next, NEXT) == 1;
    assert forall i :: 0 <= i < |ks| ==> next[i] == ks[i] && ks[i] in ks;
    if KidOk(q.kid) && 2048 <= q.material.bits && forall k :: k in ks ==> k.kid != q.kid { assert Valid(next); }
    if Valid(next) { LastIsOwn(ks, k); }
  }

  /** On a valid keyset a retirement and the promotion of a staged key always succeed; staging succeeds exactly if
      nothing is staged and the new key is well formed under a kid of its own. */
  lemma RotateSucceeds(ks: seq<Key>, q: Request)
    requires Valid(ks)
    ensures q.action == Retire ==> Rotate(ks, q).Ok?
    ensures q.action == Promote ==> (Rotate(ks, q).Ok? <==> Has(ks, NEXT))
    ensures q.action == Stage ==>
              (Rotate(ks, q).Ok? <==>
                !Has(ks, NEXT) && KidOk(q.kid) && 2048 <= q.material.bits && forall k :: k in ks ==> k.kid != q.kid)
  {
    hide Valid;
    match q.action
    case Retire => RetireSucceeds(ks, q);
    case Promote => if Has(ks, NEXT) { PromoteSucceeds(ks, q); }
    case Stage => if !Has(ks, NEXT) { StageSucceeds(ks, q); }
    case Generate =>
  }

  /** rotateKeyset: copies the entries, changes them in loops, validates. */
  method RotateKeyset(ks: seq<Key>, q: Request) returns (r: Result<seq<Key>, RotationError>)
    ensures r == Rotate(ks, q)
  {
    var next := ks;
    match q.action {
      case Generate =>
        if |next| > 0 { return Err(AlreadyExists); }
        next := next + [NewKey(ACTIVE, q.kid, q.material, q.now)];
      case Stage =>
        if Has(next, NEXT) { return Err(AlreadyStaged); }
        next := next + [NewKey(NEXT, q.kid, q.material, q.now)];
      case Promote =>
        if !Has(next, NEXT) { return Err(NothingStaged); }
        var staged := FirstNext(next);
        for i := 0 to |ks|
          invariant |next| == |ks|
          invariant forall j :: 0 <= j < i ==> next[j] == Demoted(ks[j], q.now)
          invariant forall j :: i <= j < |ks| ==> next[j] == ks[j]
        {
          if next[i].status == ACTIVE {
            next := next[i := next[i].(status := RETIRING, retiringAt := Some(q.now))];
          }
        }
        next := next[staged := next[staged].(status := ACTIVE, activatedAt := Some(q.now))];
        assert next == Candidate(ks, q).value;
      case Retire =>
        var minMs := q.minRetiringSeconds * 1000;
        for i := 0 to |ks|
          invariant |next| == |ks|
          invariant forall j :: 0 <= j < i ==> next[j] == Retired(ks[j], q.now, q.minRetiringSeconds)
          invariant forall j :: i <= j < |ks| ==> next[j] == ks[j]
        {
          if next[i].status == RETIRING && next[i].retiringAt.Some? && q.now - next[i].retiringAt.value >= minMs {
            next := next[i := next[i].(status := RETIRED, retiredAt := Some(q.now))];
          }
        }
        assert next == Candidate(ks, q).value;
    }
    var fault := ValidateKeyset(next);
    if fault.Some? { return Err(Rejected); }
    return Ok(next);
  }

  // ---- what one rotation keeps ----

  function Rank(s: Status): nat {
    match s case NEXT => 0 case ACTIVE => 1 case RETIRING => 2 case RETIRED => 3 case Other(_) => 4
  }

  /** Same kid, same key material, same birth; the status is the same or one step further, and times once set stay. */
  predicate Evolves(a: Key, b: Key) {
    && a.kid == b.kid && a.material == b.material && a.createdAt == b.createdAt
    && Rank(a.status) <= Rank(b.status) <= Rank(a.status) + 1
    && (a.activatedAt.Some? && a.status != NEXT ==> b.activatedAt == a.activatedAt)
    && (a.retiringAt.Some? && a.status != ACTIVE ==> b.retiringAt == a.retiringAt)
    && (a.retiredAt.Some? && a.status != RETIRING ==> b.retiredAt == a.retiredAt)
    && (a.status == b.status ==> a == b)
  }

  lemma RotateEvolves(ks: seq<Key>, q: Request)
    requires Rotate(ks, q).Ok?
    ensures var next := Rotate(ks, q).value;
            && Valid(next) && |ks| <= |next| <= |ks| + 1
            && (forall i :: 0 <= i < |ks| ==> Evolves(ks[i], next[i]))
            && (|ks| < |next| ==>
                 next[|ks|] == NewKey(if q.action == Generate then ACTIVE else NEXT, q.kid, q.material, q.now))
  {
    hide Valid;
  }

  /** Each key carries the times its status says it should, none in the future, and was not retired early. */
  predicate Stamped(k: Key, now: int, minRetiringSeconds: int) {
    && k.createdAt <= now
    && (k.status == NEXT || k.status == ACTIVE || k.status == RETIRING || k.status == RETIRED)
    && (k.status != NEXT ==> k.activatedAt.Some? && k.createdAt <= k.activatedAt.value <= now)
    && (k.status == RETIRING || k.status == RETIRED ==>
         k.retiringAt.Some? && k.activatedAt.value <= k.retiringAt.value <= now)
    && (k.status == RETIRED ==> k.retiredAt.Some? && k.retiredAt.value <= now &&
                                minRetiringSeconds * 1000 <= k.retiredAt.value - k.retiringAt.value)
  }

  ghost predicate AllStamped(ks: seq<Key>, now: int, minRetiringSeconds: int) {
    forall i :: 0 <= i < |ks| ==> Stamped(ks[i], now, minRetiringSeconds)
  }

  lemma RotateKeepsStamps(ks: seq<Key>, q: Request, before: int, m: int)
    requires AllStamped(ks, before, m) && before <= q.now && (q.action == Retire ==> m <= q.minRetiringSeconds)
    ensures Rotate(ks, q).Ok? ==> AllStamped(Rotate(ks, q).value, q.now, m)
  {
  }

  // ---- whole runs ----

  /** The stored keyset after a list of requests; a request that fails is not saved. */
  ghost function After(qs: seq<Request>): seq<Key> {
    if qs == [] then [] else
    var before := After(qs[..|qs| - 1]);
    var r := Rotate(before, qs[|qs| - 1]);
    if r.Ok? then r.value else before
  }

  ghost predicate InOrder(qs: seq<Request>) {
    forall i, j :: 0 <= i < j < |qs| ==> qs[i].now <= qs[j].now
  }

  lemma {:induction false} AfterIsValid(qs: seq<Request>)
    ensures After(qs) == [] || Valid(After(qs))
  {
    if qs != [] { AfterIsValid(qs[..|qs| - 1]); }
  }

  /** No kid is ever lost, key material never changes, and statuses only move forward. */
  ghost predicate Descends(a: Key, b: Key) {
    a.kid == b.kid && a.material == b.material && a.createdAt == b.createdAt && Rank(a.status) <= Rank(b.status)
  }

  lemma {:induction false} HistoryOnlyGrows(qs: seq<Request>, n: nat)
    requires n <= |qs|
    ensures |After(qs[..n])| <= |After(qs)|
    ensures forall i :: 0 <= i < |After(qs[..n])| ==> Descends(After(qs[..n])[i], After(qs)[i])
  {
    if n == |qs| {
      assert qs[..n] == qs;
    } else {
      var front := qs[..|qs| - 1];
      HistoryOnlyGrows(front, n);
      assert front[..n] == qs[..n];
      var q := qs[|qs| - 1];
      if Rotate(After(front), q).Ok? { RotateEvolves(After(front), q); }
    }
  }

  /** Over any run from the empty keyset, with clocks in order and no retire below m seconds: once a key exists exactly
      one is ACTIVE and at most one NEXT, kids are distinct, every key carries its times, and none was RETIRED sooner
      than m seconds after it became RETIRING. */
  lemma {:induction false} RunIsSound(qs: seq<Request>, m: int, now: int)
    requires InOrder(qs) && forall i :: 0 <= i < |qs| ==>
        qs[i].now <= now && (qs[i].action == Retire ==> m <= qs[i].minRetiringSeconds)
    ensures After(qs) != [] ==> Valid(After(qs))
    ensures AllStamped(After(qs), now, m)
  {
    AfterIsValid(qs);
    if qs != [] {
      var front, q := qs[..|qs| - 1], qs[|qs| - 1];
      RunIsSound(front, m, q.now);
      RotateKeepsStamps(After(front), q, q.now, m);
    }
  }
}
