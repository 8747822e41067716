/** The SSM provider stores one parameter per key and writes them one at a time, so a concurrent read may mix old and
    new values. */
module SsmProvider {
  import opened Wrappers
  import opened Keyset

  type Parameters = map<string, Key>

  /** The parameters after the first k PutParameter calls of a save. */
  function Written(store: Parameters, keys: seq<Key>, k: nat): Parameters
    requires k <= |keys|
  {
    if k == 0 then store else Written(store, keys, k - 1)[keys[k - 1].kid := keys[k - 1]]
  }

  /** The parameters that hold exactly these keys. */
  function Stored(keys: seq<Key>): Parameters {
    Written(map[], keys, |keys|)
  }

  /** One listed parameter; value is None for an empty string. */
  datatype Parameter = Parameter(value: Option<Key>, secure: bool)

  function Values(ps: seq<Parameter>): seq<Key> {
    if ps == [] then [] else
    var last := ps[|ps| - 1];
    Values(ps[..|ps| - 1]) + if last.value.Some? then [last.value.value] else []
  }

  function Flat(pages: seq<seq<Parameter>>): seq<Parameter> {
    if pages == [] then [] else Flat(pages[..|pages| - 1]) + pages[|pages| - 1]
  }

  class SsmKeyProvider {
    var parameters: Parameters

    constructor ()
      ensures parameters == map[]
    {
      parameters := map[];
    }

    /** One PutParameter per key, in order. */
    method Save(keys: seq<Key>)
      modifies this
      ensures parameters == Written(old(parameters), keys, |keys|)
    {
      for i := 0 to |keys|
        invariant parameters == Written(old(parameters), keys, i)
      {
        parameters := parameters[keys[i].kid := keys[i]];
      }
    }
  }

  /** The paging loop of load, over the pages AWS returned: it fails exactly when some non-empty parameter is not a
      SecureString, and otherwise returns every value in listing order. */
  method Load(pages: seq<seq<Parameter>>) returns (r: Option<seq<Key>>)
    ensures r.None? <==> exists p :: p in Flat(pages) && p.value.Some? && !p.secure
    ensures r.Some? ==> r.value == Values(Flat(pages))
  {
    var keys: seq<Key> := [];
    for i := 0 to |pages|
      invariant keys == Values(Flat(pages[..i]))
      invariant forall p :: p in Flat(pages[..i]) && p.value.Some? ==> p.secure
    {
      var page := pages[i];
      assert pages[..i + 1][..i] == pages[..i];
      ghost var seen := Flat(pages[..i]);
      assert Flat(pages[..i + 1]) == seen + page;
      assert seen + page[..0] == seen;
      for j := 0 to |page|
        invariant keys == Values(seen + page[..j])
        invariant forall p :: p in seen + page[..j] && p.value.Some? ==> p.secure
      {
        var parameter := page[j];
        NextValue(seen, page, j);
        if parameter.value.None? { continue; }
        if !parameter.secure {
          FlatKeeps(pages, i + 1, parameter);
          return None;
        }
        keys := keys + [parameter.value.value];
      }
      assert page[..|page|] == page;
    }
    assert pages[..|pages|] == pages;
    return Some(keys);
  }

  lemma NextValue(seen: seq<Parameter>, page: seq<Parameter>, j: nat)
    requires j < |page|
    ensures seen + page[..j + 1] == seen + page[..j] + [page[j]]
    ensures Values(seen + page[..j + 1])
            == Values(seen + page[..j]) + if page[j].value.Some? then [page[j].value.value] else []
  {
    var all := seen + page[..j + 1];
    assert all[..|all| - 1] == seen + page[..j];
  }

  lemma {:induction false} FlatKeeps(pages: seq<seq<Parameter>>, n: nat, p: Parameter)
    requires n <= |pages| && p in Flat(pages[..n])
    ensures p in Flat(pages)
  {
    if n == |pages| {
      assert pages[..n] == pages;
    } else {
      assert pages[..|pages| - 1][..n] == pages[..n];
      FlatKeeps(pages[..|pages| - 1], n, p);
    }
  }

  // ---- torn reads ----

  /** What a load may return while keys are being saved over store: each value was read after some number of the writes,
      no kid twice, and every kid that was there all along is listed. */
  ghost predicate TornRead(store: Parameters, keys: seq<Key>, got: seq<Key>) {
    && DistinctKids(got)
    && (forall i :: 0 <= i < |got| ==> exists t: nat :: t <= |keys| && HeldAfter(store, keys, t, got[i]))
    && (forall kid :: kid in store ==> exists i :: 0 <= i < |got| && got[i].kid == kid)
  }

  ghost predicate HeldAfter(store: Parameters, keys: seq<Key>, t: nat, k: Key)
    requires t <= |keys|
  {
    k.kid in Written(store, keys, t) && Written(store, keys, t)[k.kid] == k
  }

  lemma {:induction false} WrittenIsOldOrNew(store: Parameters, keys: seq<Key>, t: nat, kid: string)
    requires t <= |keys| && kid in Written(store, keys, t)
    ensures var k := Written(store, keys, t)[kid];
            (k in keys && k.kid == kid) || (kid in store && k == store[kid])
  {
    if t > 0 && keys[t - 1].kid != kid { WrittenIsOldOrNew(store, keys, t - 1, kid); }
  }

  lemma {:induction false} WrittenHasAll(store: Parameters, keys: seq<Key>, t: nat, i: nat)
    requires i < t <= |keys| && DistinctKids(keys)
    ensures keys[i].kid in Written(store, keys, t) && Written(store, keys, t)[keys[i].kid] == keys[i]
  {
    if i < t - 1 { WrittenHasAll(store, keys, t - 1, i); }
  }

  /** What a save of a rotated keyset writes over: the same kids, in the same positions, and perhaps one more. */
  ghost predicate Successor(before: seq<Key>, after: seq<Key>) {
    |before| <= |after| && DistinctKids(after) && forall i :: 0 <= i < |before| ==> before[i].kid == after[i].kid
  }

  lemma RotateIsSuccessor(before: seq<Key>, q: Request)
    requires Rotate(before, q).Ok?
    ensures Successor(before, Rotate(before, q).value)
  {
    RotateEvolves(before, q);
    forall i | 0 <= i < |before| ensures before[i].kid == Rotate(before, q).value[i].kid {
      assert Evolves(before[i], Rotate(before, q).value[i]);
    }
  }

  lemma StoredIsElement(keys: seq<Key>, kid: string)
    requires kid in Stored(keys)
    ensures Stored(keys)[kid] in keys && Stored(keys)[kid].kid == kid
  {
    WrittenIsOldOrNew(map[], keys, |keys|, kid);
  }

  /** A finished save leaves exactly the new keyset, since rotation never drops a kid. */
  lemma SaveCompletes(before: seq<Key>, q: Request)
    requires Rotate(before, q).Ok?
    ensures var after := Rotate(before, q).value;
            Written(Stored(before), after, |after|) == Stored(after)
  {
    RotateIsSuccessor(before, q);
    SaveOverwritesAll(before, Rotate(before, q).value);
  }

  lemma SaveOverwritesAll(before: seq<Key>, after: seq<Key>)
    requires Successor(before, after)
    ensures Written(Stored(before), after, |after|) == Stored(after)
  {
    var got, want := Written(Stored(before), after, |after|), Stored(after);
    forall i | 0 <= i < |after|
      ensures after[i].kid in got && after[i].kid in want && got[after[i].kid] == want[after[i].kid]
    {
      WrittenHasAll(Stored(before), after, |after|, i);
      WrittenHasAll(map[], after, |after|, i);
    }
    forall kid | kid in want ensures kid in got {
      StoredIsElement(after, kid);
    }
    forall kid | kid in got ensures kid in want && got[kid] == want[kid] {
      WrittenIsOldOrNew(Stored(before), after, |after|, kid);
      if kid in Stored(before) {
        StoredIsElement(before, kid);
        var i :| 0 <= i < |before| && before[i] == Stored(before)[kid];
        assert after[i].kid == kid;
      }
    }
    assert got.Keys == want.Keys;
  }

  /** Position by position: what was read is the old or the new entry. */
  ghost predicate Mixture(before: seq<Key>, after: seq<Key>, got: seq<Key>) {
    && (forall k :: k in got ==> Somewhere(before, after, k))
    && (forall i :: 0 <= i < |before| ==> Covered(before, after, got, i))
  }

  ghost predicate Somewhere(before: seq<Key>, after: seq<Key>, k: Key) {
    exists i :: 0 <= i < |after| && OldOrNew(before, after, i, k)
  }

  ghost predicate Covered(before: seq<Key>, after: seq<Key>, got: seq<Key>, i: int) {
    exists k :: k in got && OldOrNew(before, after, i, k)
  }

  ghost predicate OldOrNew(before: seq<Key>, after: seq<Key>, i: int, k: Key) {
    (0 <= i < |after| && k == after[i]) || (0 <= i < |before| && k == before[i])
  }

  lemma ReadIsOldOrNew(before: seq<Key>, after: seq<Key>, t: nat, k: Key) returns (i: nat)
    requires Successor(before, after) && t <= |after| && HeldAfter(Stored(before), after, t, k)
    ensures i < |after| && OldOrNew(before, after, i, k) && after[i].kid == k.kid
  {
    WrittenIsOldOrNew(Stored(before), after, t, k.kid);
    if k in after {
      i :| 0 <= i < |after| && after[i] == k;
    } else {
      StoredIsElement(before, k.kid);
      i :| 0 <= i < |before| && before[i] == k;
    }
  }

  lemma TornReadIsMixture(before: seq<Key>, after: seq<Key>, got: seq<Key>)
    requires Successor(before, after) && TornRead(Stored(before), after, got)
    ensures Mixture(before, after, got)
  {
    forall j | 0 <= j < |got|
      ensures exists i :: 0 <= i < |after| && OldOrNew(before, after, i, got[j]) && after[i].kid == got[j].kid
    {
      var t: nat :| t <= |after| && HeldAfter(Stored(before), after, t, got[j]);
      var i := ReadIsOldOrNew(before, after, t, got[j]);
    }
    forall k | k in got ensures Somewhere(before, after, k) {
      var j :| 0 <= j < |got| && got[j] == k;
    }
    forall i | 0 <= i < |before| ensures Covered(before, after, got, i) {
      WrittenHasAll(map[], before, |before|, i) by {
        assert forall i, j :: 0 <= i < j < |before| ==> before[i].kid == after[i].kid && before[j].kid == after[j].kid;
      }
      assert before[i].kid in Stored(before);
      var j :| 0 <= j < |got| && got[j].kid == before[i].kid;
      var n :| 0 <= n < |after| && OldOrNew(before, after, n, got[j]) && after[n].kid == got[j].kid;
      assert n == i;
      assert got[j] in got;
    }
  }

  /** No two entries are ACTIVE and some entry is. */
  lemma OneActive(ks: seq<Key>)
    requires Valid(ks)
    ensures exists i :: 0 <= i < |ks| && ks[i].status == ACTIVE
    ensures forall i, j :: 0 <= i < j < |ks| ==> ks[i].status != ACTIVE || ks[j].status != ACTIVE
    ensures forall i, j :: 0 <= i < j < |ks| ==> ks[i].status != NEXT || ks[j].status != NEXT
  {
    CountZero(ks, ACTIVE);
    CountAtMostOne(ks, ACTIVE);
    CountAtMostOne(ks, NEXT);
  }

  ghost predicate SameElements(a: seq<Key>, b: seq<Key>) {
    forall k :: k in a <==> k in b
  }

  /** A promotion changes the old active key and the staged key, nothing else. */
  lemma PromoteShape(before: seq<Key>, q: Request) returns (a: nat, n: nat)
    requires Valid(before) && q.action == Promote && Rotate(before, q).Ok?
    ensures var after := Rotate(before, q).value;
            && |after| == |before| && a < |before| && n < |before| && a != n
            && before[a].status == ACTIVE && after[a].status == RETIRING && before[n].status == NEXT
            && after[n].status == ACTIVE
            && (forall i :: 0 <= i < |before| && i != a && i != n ==>
                 before[i] == after[i] && before[i].status != ACTIVE)
  {
    OneActive(before);
    a :| 0 <= a < |before| && before[a].status == ACTIVE;
    n := FirstNext(before);
  }

  /** Two ACTIVE entries or none: the staged and the old active entry are both old or both new. */
  lemma PromoteIsAllOrNothing(before: seq<Key>, after: seq<Key>, got: seq<Key>, a: nat, n: nat, ka: Key, kn: Key)
    requires Valid(got) && Mixture(before, after, got) && |after| == |before| && a < |before| && n < |before| && a != n
    requires before[a].status == ACTIVE && after[a].status == RETIRING && before[n].status == NEXT
    requires after[n].status == ACTIVE
    requires forall i :: 0 <= i < |before| && i != a && i != n ==> before[i] == after[i] && before[i].status != ACTIVE
    requires ka in got && OldOrNew(before, after, a, ka) && kn in got && OldOrNew(before, after, n, kn)
    requires before[a].kid != before[n].kid && before[a].kid == after[a].kid && before[n].kid == after[n].kid
    requires forall k :: k in got && k.kid == ka.kid ==> k == ka
    requires forall k :: k in got && k.kid == kn.kid ==> k == kn
    ensures ka == after[a] <==> kn == after[n]
  {
    OneActive(got);
    var g :| 0 <= g < |got| && got[g].status == ACTIVE;
    var x :| 0 <= x < |got| && got[x] == ka;
    var y :| 0 <= y < |got| && got[y] == kn;
    assert Somewhere(before, after, got[g]);
  }

  lemma KidsIdentify(got: seq<Key>, x: Key)
    requires DistinctKids(got) && x in got
    ensures forall k :: k in got && k.kid == x.kid ==> k == x
  {
    var i :| 0 <= i < |got| && got[i] == x;
    forall k | k in got && k.kid == x.kid ensures k == x {
      var j :| 0 <= j < |got| && got[j] == k;
    }
  }

  /** Hence only the unmixed keysets validate. */
  lemma PromoteMixture(before: seq<Key>, after: seq<Key>, got: seq<Key>, a: nat, n: nat)
    requires Valid(got) && Mixture(before, after, got) && |after| == |before| && a < |before| && n < |before| && a != n
    requires before[a].status == ACTIVE && after[a].status == RETIRING && before[n].status == NEXT
    requires after[n].status == ACTIVE
    requires before[a].kid == after[a].kid && before[n].kid == after[n].kid && before[a].kid != before[n].kid
    requires forall i :: 0 <= i < |before| && i != a && i != n ==> before[i] == after[i] && before[i].status != ACTIVE
    ensures SameElements(got, before) || SameElements(got, after)
  {
    assert Covered(before, after, got, a);
    var ka :| ka in got && OldOrNew(before, after, a, ka);
    assert Covered(before, after, got, n);
    var kn :| kn in got && OldOrNew(before, after, n, kn);
    KidsIdentify(got, ka);
    KidsIdentify(got, kn);
    PromoteIsAllOrNothing(before, after, got, a, n, ka, kn);
    SettledIsTarget(before, after, got, if kn == after[n] then after else before, a, n);
  }

  lemma SettledIsTarget(before: seq<Key>, after: seq<Key>, got: seq<Key>, target: seq<Key>, a: nat, n: nat)
    requires Mixture(before, after, got) && |after| == |before| == |target| && a < |before| && n < |before|
    requires forall i :: 0 <= i < |before| && i != a && i != n ==> before[i] == after[i] == target[i]
    requires forall k :: k in got && (OldOrNew(before, after, a, k) || OldOrNew(before, after, n, k)) ==>
        k == target[a] || k == target[n]
    requires target[a] in got && target[n] in got
    ensures SameElements(got, target)
  {
    forall k | k in got ensures k in target {
      assert Somewhere(before, after, k);
      var i :| 0 <= i < |after| && OldOrNew(before, after, i, k);
      assert i == a || i == n || k == target[i];
    }
    forall k | k in target ensures k in got {
      var i :| 0 <= i < |target| && target[i] == k;
      assert Covered(before, after, got, i);
      var x :| x in got && OldOrNew(before, after, i, x);
    }
  }

  /** Some entry of either keyset has this kid and satisfies the status test. */
  ghost predicate InEither(before: seq<Key>, after: seq<Key>, kid: string, s: Status) {
    exists x :: (x in before || x in after) && x.kid == kid && x.status == s
  }

  ghost predicate PublishedIn(ks: seq<Key>, kid: string) {
    exists x :: x in ks && x.kid == kid && IsPublished(x)
  }

  /** A torn read that validates signs with the old or the new signing key, publishes at least what both keysets publish
      and at most what either does, and during a promotion is exactly one of the two keysets. */
  lemma TornReadsAreHarmless(before: seq<Key>, q: Request, got: seq<Key>, kid: string)
    requires (before == [] || Valid(before)) && Rotate(before, q).Ok? && Valid(got)
    requires TornRead(Stored(before), Rotate(before, q).value, got)
    ensures var after := Rotate(before, q).value;
            && (InEither(got, [], kid, ACTIVE) ==> InEither(before, after, kid, ACTIVE))
            && (PublishedIn(got, kid) ==> PublishedIn(before, kid) || PublishedIn(after, kid))
            && (PublishedIn(before, kid) && PublishedIn(after, kid) ==> PublishedIn(got, kid))
            && (q.action == Promote ==> SameElements(got, before) || SameElements(got, after))
  {
    var after := Rotate(before, q).value;
    RotateIsSuccessor(before, q);
    TornReadIsMixture(before, after, got);
    BetweenTheTwo(before, after, got, kid);
    if q.action == Promote {
      var a, n := PromoteShape(before, q);
      PromoteMixture(before, after, got, a, n);
    }
  }

  lemma FromEither(before: seq<Key>, after: seq<Key>, got: seq<Key>, k: Key)
    requires Mixture(before, after, got) && k in got
    ensures k in before || k in after
  {
    assert Somewhere(before, after, k);
    var i :| 0 <= i < |after| && OldOrNew(before, after, i, k);
  }

  lemma PublishedByBoth(before: seq<Key>, after: seq<Key>, got: seq<Key>, kid: string)
    requires Successor(before, after) && Mixture(before, after, got) && PublishedIn(before, kid)
    requires PublishedIn(after, kid)
    ensures PublishedIn(got, kid)
  {
    var x :| x in before && x.kid == kid && IsPublished(x);
    var y :| y in after && y.kid == kid && IsPublished(y);
    var i :| 0 <= i < |before| && before[i] == x;
    var j :| 0 <= j < |after| && after[j] == y;
    assert before[i].kid == after[i].kid && i == j;
    assert Covered(before, after, got, i);
    var k :| k in got && OldOrNew(before, after, i, k);
    assert k == x || k == y;
  }

  lemma BetweenTheTwo(before: seq<Key>, after: seq<Key>, got: seq<Key>, kid: string)
    requires Successor(before, after) && Mixture(before, after, got)
    ensures InEither(got, [], kid, ACTIVE) ==> InEither(before, after, kid, ACTIVE)
    ensures PublishedIn(got, kid) ==> PublishedIn(before, kid) || PublishedIn(after, kid)
    ensures PublishedIn(before, kid) && PublishedIn(after, kid) ==> PublishedIn(got, kid)
  {
    forall k | k in got ensures k in before || k in after { FromEither(before, after, got, k); }
    if PublishedIn(before, kid) && PublishedIn(after, kid) { PublishedByBoth(before, after, got, kid); }
  }

}
