/** The in-memory key store of a pod: the signing key and the public JWKS of the last keyset it accepted. */
module KeyStore {
  import opened Wrappers
  import opened Keyset
  import F = Fingerprint

  /** A public JWK; its modulus is determined by the key pair. */
  datatype Jwk = Jwk(kid: string, pair: Material)

  datatype Loaded = Loaded(signingKid: string, signingKey: Material, jwks: seq<Jwk>, fingerprint: string)

  function ToPublic(k: Key): Jwk { Jwk(k.kid, k.material) }

  function Jwks(ks: seq<Key>): seq<Jwk> {
    seq(|Published(ks)|, i requires 0 <= i < |Published(ks)| => ToPublic(Published(ks)[i]))
  }

  /** The first ACTIVE key. */
  function Signer(ks: seq<Key>): (k: Key)
    requires Has(ks, ACTIVE)
    ensures k in ks && k.status == ACTIVE
  {
    if ks[0].status == ACTIVE then ks[0] else
    assert ks == [ks[0]] + ks[1..];
    Signer(ks[1..])
  }

  lemma ValidHasActive(ks: seq<Key>)
    requires Valid(ks)
    ensures Has(ks, ACTIVE) && forall k :: k in ks && k.status == ACTIVE ==> k == Signer(ks)
  {
    CountZero(ks, ACTIVE);
    CountAtMostOne(ks, ACTIVE);
    forall k | k in ks && k.status == ACTIVE ensures k == Signer(ks) {
      var i :| 0 <= i < |ks| && ks[i] == k;
      var j :| 0 <= j < |ks| && ks[j] == Signer(ks);
    }
  }

  /** The JWKS has a public key for every key that is NEXT, ACTIVE or RETIRING, under its kid, and no other. */
  lemma JwksAre(ks: seq<Key>, j: Jwk)
    ensures j in Jwks(ks) <==>
        exists k :: k in ks && k.status in {NEXT, ACTIVE, RETIRING} && j == Jwk(k.kid, k.material)
  {
    if j in Jwks(ks) {
      var i :| 0 <= i < |Published(ks)| && Jwks(ks)[i] == j;
      PublishedIffStatus(ks, Published(ks)[i]);
    }
    forall k | k in ks && k.status in {NEXT, ACTIVE, RETIRING} && j == Jwk(k.kid, k.material) ensures j in Jwks(ks) {
      PublishedIffStatus(ks, k);
      var i :| 0 <= i < |Published(ks)| && Published(ks)[i] == k;
      assert Jwks(ks)[i] == j;
    }
  }

  /** A full recompute from a keyset. */
  function Recompute(ks: seq<Key>): Loaded
    requires Has(ks, ACTIVE)
  {
    Loaded(Signer(ks).kid, Signer(ks).material, Jwks(ks), F.Of(ks))
  }

  /** One reload; None is a provider failure. A failed or rejected load keeps the last state. */
  ghost function Reloaded(state: Option<Loaded>, load: Option<seq<Key>>): Option<Loaded> {
    if load.None? || !Valid(load.value) then state else
    ValidHasActive(load.value);
    if state.Some? && state.value.fingerprint == F.Of(load.value) then state else Some(Recompute(load.value))
  }

  class KeyStore {
    var state: Option<Loaded>

    /** The key that signs is in the JWKS. */
    ghost predicate Sound()
      reads this
    {
      state.Some? ==> Jwk(state.value.signingKid, state.value.signingKey) in state.value.jwks
    }

    constructor ()
      ensures state == None && Sound()
    {
      state := None;
    }

    /** False stands for the exception that leaves the last known-good keyset in place. */
    method Reload(load: Option<seq<Key>>) returns (accepted: bool)
      modifies this
      ensures state == Reloaded(old(state), load)
      ensures accepted <==> load.Some? && Valid(load.value)
      ensures old(Sound()) ==> Sound()
    {
      if load.None? { return false; }
      var keys := load.value;
      var fault := ValidateKeyset(keys);
      if fault.Some? { return false; }
      var fingerprint := F.Of(keys);
      if state.Some? && state.value.fingerprint == fingerprint { return true; }
      ValidHasActive(keys);
      var active := Signer(keys);
      JwksFrom(keys, ToPublic(active));
      state := Some(Loaded(active.kid, active.material, Jwks(keys), fingerprint));
      return true;
    }

    /** None only when nothing was ever loaded; otherwise verifiers find the key in the JWKS under its kid. */
    method SigningKey() returns (r: Option<(string, Material)>)
      requires Sound()
      ensures r.Some? <==> state.Some?
      ensures r.Some? ==> Jwk(r.value.0, r.value.1) in state.value.jwks
      ensures r.Some? ==> r.value == (state.value.signingKid, state.value.signingKey)
    {
      if state.None? { return None; }
      return Some((state.value.signingKid, state.value.signingKey));
    }
  }

  // ---- sequences of reloads ----

  ghost function AfterLoads(loads: seq<Option<seq<Key>>>): Option<Loaded> {
    if loads == [] then None else Reloaded(AfterLoads(loads[..|loads| - 1]), loads[|loads| - 1])
  }

  ghost predicate Accepted(load: Option<seq<Key>>) {
    load.Some? && Valid(load.value)
  }

  /** The last load that validated. */
  ghost function LastAccepted(loads: seq<Option<seq<Key>>>): (r: Option<seq<Key>>)
    ensures r.Some? ==> r in loads && Valid(r.value)
  {
    if loads == [] then None
    else if Accepted(loads[|loads| - 1]) then loads[|loads| - 1]
    else LastAccepted(loads[..|loads| - 1])
  }

  /** Every published key of a keeps its key material in b. */
  ghost predicate Agree(a: seq<Key>, b: seq<Key>) {
    forall x, y :: x in a && y in b && x.kid == y.kid && IsPublished(x) ==> x.material == y.material
  }

  /** Same signing key and same set of public keys. */
  ghost predicate Equivalent(a: Loaded, b: Loaded) {
    a.signingKid == b.signingKid && a.signingKey == b.signingKey && forall j :: j in a.jwks <==> j in b.jwks
  }

  lemma JwksFrom(ks: seq<Key>, j: Jwk)
    ensures j in Jwks(ks) <==> exists k :: k in ks && IsPublished(k) && ToPublic(k) == j
  {
    if j in Jwks(ks) {
      var i :| 0 <= i < |Published(ks)| && Jwks(ks)[i] == j;
      PublishedIffStatus(ks, Published(ks)[i]);
    }
    if exists k :: k in ks && IsPublished(k) && ToPublic(k) == j {
      var k :| k in ks && IsPublished(k) && ToPublic(k) == j;
      PublishedIffStatus(ks, k);
      var i :| 0 <= i < |Published(ks)| && Published(ks)[i] == k;
      assert Jwks(ks)[i] == j;
    }
  }

  lemma PairIn(a: seq<Key>, b: seq<Key>, x: Key) returns (y: Key)
    requires F.Pairs(a) <= F.Pairs(b) && x in a
    ensures y in b && y.kid == x.kid && y.status == x.status
  {
    var i :| 0 <= i < |a| && a[i] == x;
    assert (a[i].kid, a[i].status) in F.Pairs(b);
    var j :| 0 <= j < |b| && (b[j].kid, b[j].status) == (x.kid, x.status);
    y := b[j];
  }

  lemma SamePairsEquivalent(a: seq<Key>, b: seq<Key>)
    requires Valid(a) && Valid(b) && F.Pairs(a) == F.Pairs(b) && Agree(a, b)
    ensures Has(a, ACTIVE) && Has(b, ACTIVE) && Equivalent(Recompute(a), Recompute(b))
  {
    ValidHasActive(a);
    ValidHasActive(b);
    var y := PairIn(a, b, Signer(a));
    forall j ensures j in Jwks(a) <==> j in Jwks(b) {
      JwksFrom(a, j);
      JwksFrom(b, j);
      if j in Jwks(a) {
        var k :| k in a && IsPublished(k) && ToPublic(k) == j;
        var k' := PairIn(a, b, k);
        assert ToPublic(k') == j;
      }
      if j in Jwks(b) {
        var k :| k in b && IsPublished(k) && ToPublic(k) == j;
        var k' := PairIn(b, a, k);
        assert ToPublic(k') == j;
      }
    }
  }

  /** The shortcut is sound: after any reloads, some failing, the state is equivalent to a full recompute on the last
      accepted keyset, and the signing kid is published, provided a kid never changes its key material. */
  lemma {:induction false} ReloadsEqualRecompute(loads: seq<Option<seq<Key>>>)
    requires forall a, b :: a in loads && b in loads && Accepted(a) && Accepted(b) ==> Agree(a.value, b.value)
    ensures AfterLoads(loads).Some? <==> LastAccepted(loads).Some?
    ensures LastAccepted(loads).Some? ==>
              var last := LastAccepted(loads).value;
              && Has(last, ACTIVE) && Equivalent(AfterLoads(loads).value, Recompute(last))
              && AfterLoads(loads).value.fingerprint == F.Of(last)
              && Jwk(AfterLoads(loads).value.signingKid, AfterLoads(loads).value.signingKey)
                 in AfterLoads(loads).value.jwks
  {
    if loads != [] {
      var front, load := loads[..|loads| - 1], loads[|loads| - 1];
      ReloadsEqualRecompute(front);
      if Accepted(load) {
        ValidHasActive(load.value);
        JwksFrom(load.value, ToPublic(Signer(load.value)));
        if LastAccepted(front).Some? && F.Of(LastAccepted(front).value) == F.Of(load.value) {
          F.EqualExactlyWhenSamePairs(LastAccepted(front).value, load.value);
          SamePairsEquivalent(LastAccepted(front).value, load.value);
        }
      }
    }
  }

  lemma KidInOneKey(ks: seq<Key>, x: Key, y: Key)
    requires Valid(ks) && x in ks && y in ks && x.kid == y.kid
    ensures x == y
  {
    var i :| 0 <= i < |ks| && ks[i] == x;
    var j :| 0 <= j < |ks| && ks[j] == y;
  }

  lemma EquivalentAgree(a: seq<Key>, b: seq<Key>)
    requires Valid(a) && Valid(b) && F.Pairs(a) == F.Pairs(b) && Has(a, ACTIVE) && Has(b, ACTIVE)
    requires Equivalent(Recompute(a), Recompute(b))
    ensures Agree(a, b)
  {
    forall x, y | x in a && y in b && x.kid == y.kid && IsPublished(x) ensures x.material == y.material {
      var z := PairIn(a, b, x);
      KidInOneKey(b, y, z);
      JwksFrom(b, ToPublic(y));
      JwksFrom(a, ToPublic(y));
      var k :| k in a && IsPublished(k) && ToPublic(k) == ToPublic(y);
      KidInOneKey(a, k, x);
    }
  }

  /** One reload of a valid keyset ends with that keyset's signing key and public keys exactly when its kids or statuses
      differ from what is loaded, or no published key changed its key material. */
  lemma ReloadIsExactWhen(held: seq<Key>, loaded: seq<Key>)
    requires Valid(held) && Valid(loaded)
    ensures Has(held, ACTIVE) && Has(loaded, ACTIVE)
    ensures var next := Reloaded(Some(Recompute(held)), Some(loaded));
            next.Some?
              && (Equivalent(next.value, Recompute(loaded)) <==>
                   F.Pairs(held) != F.Pairs(loaded) || Agree(held, loaded))
  {
    ValidHasActive(held);
    ValidHasActive(loaded);
    F.EqualExactlyWhenSamePairs(held, loaded);
    if F.Pairs(held) == F.Pairs(loaded) {
      if Agree(held, loaded) { SamePairsEquivalent(held, loaded); }
      if Equivalent(Recompute(held), Recompute(loaded)) { EquivalentAgree(held, loaded); }
    }
  }

  // ---- loads from one rotation history ----

  /** Every key was stored at some point of the history; a torn read qualifies as well as a whole one. */
  ghost predicate FromHistory(qs: seq<Request>, ks: seq<Key>) {
    forall k :: k in ks ==> exists n: nat :: n <= |qs| && k in After(qs[..n])
  }

  lemma HistoryAgrees(qs: seq<Request>, a: seq<Key>, b: seq<Key>)
    requires FromHistory(qs, a) && FromHistory(qs, b)
    ensures Agree(a, b)
  {
    hide After;
    forall x, y | x in a && y in b && x.kid == y.kid && IsPublished(x) ensures x.material == y.material {
      var n: nat :| n <= |qs| && x in After(qs[..n]);
      var m: nat :| m <= |qs| && y in After(qs[..m]);
      HistoryOnlyGrows(qs, n);
      HistoryOnlyGrows(qs, m);
      AfterIsValid(qs);
      var i :| 0 <= i < |After(qs[..n])| && After(qs[..n])[i] == x;
      var j :| 0 <= j < |After(qs[..m])| && After(qs[..m])[j] == y;
      assert Descends(x, After(qs)[i]) && Descends(y, After(qs)[j]);
    }
  }

  /** Whatever a pod loads while one keyset is being rotated, its signing key and JWKS set are those of the last load it
      accepted, and it never signs with an unpublished kid. */
  lemma PodsFollowTheHistory(qs: seq<Request>, loads: seq<Option<seq<Key>>>)
    requires forall load :: load in loads && Accepted(load) ==> FromHistory(qs, load.value)
    ensures LastAccepted(loads).Some? ==>
              var last := LastAccepted(loads).value;
              && AfterLoads(loads).Some? && Has(last, ACTIVE) && Equivalent(AfterLoads(loads).value, Recompute(last))
              && Jwk(AfterLoads(loads).value.signingKid, AfterLoads(loads).value.signingKey)
                 in AfterLoads(loads).value.jwks
  {
    forall a, b | a in loads && b in loads && Accepted(a) && Accepted(b) ensures Agree(a.value, b.value) {
      HistoryAgrees(qs, a.value, b.value);
    }
    ReloadsEqualRecompute(loads);
  }
}
