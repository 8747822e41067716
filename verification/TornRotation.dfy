/** Rotation timing when saving a keyset takes time and pods may load in the middle of it. */
module TornRotation {
  import opened Keyset
  import opened SsmProvider
  import opened RotationTiming
  import K = KeyStore

  /** Saves do not share a clock reading. */
  ghost predicate Apart(qs: seq<Request>) {
    forall i, j :: 0 <= i < j < |qs| ==> qs[i].now < qs[j].now
  }

  /** got is a valid torn read of the save of request n, made within save ms of its start. */
  ghost predicate TornLoad(qs: seq<Request>, save: nat, at: int, got: seq<Key>, n: nat) {
    && n < |qs| && qs[n].now <= at <= qs[n].now + save
    && Rotate(After(qs[..n]), qs[n]).Ok? && Valid(got)
    && TornRead(Stored(After(qs[..n])), Rotate(After(qs[..n]), qs[n]).value, got)
  }

  /** What a pod may have loaded at a time: the stored keyset, or a torn read of a save in progress. */
  ghost predicate View(qs: seq<Request>, save: nat, at: int, got: seq<Key>) {
    (got == At(qs, at) && got != []) || exists n: nat :: TornLoad(qs, save, at, got, n)
  }

  lemma {:induction false} UptoIs(qs: seq<Request>, n: nat, v: int)
    requires Apart(qs) && n <= |qs| && (n < |qs| ==> v < qs[n].now) && (0 < n ==> qs[n - 1].now <= v)
    ensures Upto(qs, v) == n
  {
    if n < |qs| {
      var front := qs[..|qs| - 1];
      assert v < qs[|qs| - 1].now;
      UptoIs(front, n, v);
    }
  }

  lemma AroundSave(qs: seq<Request>, n: nat)
    requires Apart(qs) && n < |qs|
    ensures At(qs, qs[n].now - 1) == After(qs[..n])
    ensures Rotate(After(qs[..n]), qs[n]).Ok? ==> At(qs, qs[n].now) == Rotate(After(qs[..n]), qs[n]).value
  {
    UptoIs(qs, n, qs[n].now - 1);
    UptoIs(qs, n + 1, qs[n].now);
    assert qs[..n + 1][..n] == qs[..n];
  }

  /** A view lies between two snapshots that are at most save + 1 ms older than it: its keys come from them, and it
      publishes what both publish. */
  ghost predicate Between(qs: seq<Request>, lo: int, hi: int, got: seq<Key>) {
    && At(qs, lo) != [] && At(qs, hi) != []
    && (forall k :: k in got ==> k in At(qs, lo) || k in At(qs, hi))
    && (forall kid :: PublishedIn(At(qs, lo), kid) && PublishedIn(At(qs, hi), kid) ==> PublishedIn(got, kid))
  }

  lemma TornLoadBetween(qs: seq<Request>, save: nat, at: int, got: seq<Key>, n: nat)
    requires Apart(qs) && TornLoad(qs, save, at, got, n) && After(qs[..n]) != []
    ensures Between(qs, qs[n].now - 1, qs[n].now, got)
  {
    AroundSave(qs, n);
    var before, after := After(qs[..n]), Rotate(After(qs[..n]), qs[n]).value;
    AfterIsValid(qs[..n]);
    RotateIsSuccessor(before, qs[n]);
    TornReadIsMixture(before, after, got);
    forall k | k in got ensures k in before || k in after { FromEither(before, after, got, k); }
    forall kid | PublishedIn(before, kid) && PublishedIn(after, kid) ensures PublishedIn(got, kid) {
      PublishedByBoth(before, after, got, kid);
    }
  }

  /** Nothing can be torn in the save of the bootstrap key. */
  lemma FirstLoadIsWhole(qs: seq<Request>, save: nat, at: int, got: seq<Key>, n: nat)
    requires Apart(qs) && TornLoad(qs, save, at, got, n) && After(qs[..n]) == []
    ensures Between(qs, qs[n].now, qs[n].now, got)
  {
    AroundSave(qs, n);
    var after := Rotate([], qs[n]).value;
    RotateEvolves([], qs[n]);
    RotateIsSuccessor([], qs[n]);
    TornReadIsMixture([], after, got);
    K.ValidHasActive(got);
    var a := K.Signer(got);
    forall k | k in got ensures k in after { FromEither([], after, got, k); }
    assert after == [after[0]] && a == after[0];
  }

  lemma TornViewBetween(qs: seq<Request>, save: nat, at: int, got: seq<Key>, n: nat) returns (lo: int, hi: int)
    requires Apart(qs) && TornLoad(qs, save, at, got, n)
    ensures at - save - 1 <= lo <= hi <= at && Between(qs, lo, hi, got)
  {
    if After(qs[..n]) == [] {
      FirstLoadIsWhole(qs, save, at, got, n);
      lo, hi := qs[n].now, qs[n].now;
    } else {
      TornLoadBetween(qs, save, at, got, n);
      lo, hi := qs[n].now - 1, qs[n].now;
    }
  }

  lemma ViewBetween(qs: seq<Request>, save: nat, at: int, got: seq<Key>) returns (lo: int, hi: int)
    requires Apart(qs) && View(qs, save, at, got)
    ensures at - save - 1 <= lo <= hi <= at && Between(qs, lo, hi, got)
  {
    if got == At(qs, at) && got != [] {
      lo, hi := at, at;
    } else {
      var n: nat :| TornLoad(qs, save, at, got, n);
      lo, hi := TornViewBetween(qs, save, at, got, n);
    }
  }

  /** The key that one snapshot signs with is published, with its material, in another. */
  ghost predicate Holds(ks: seq<Key>, a: Key) {
    exists b :: b in ks && IsPublished(b) && b.kid == a.kid && b.material == a.material
  }

  lemma SnapshotHolds(qs: seq<Request>, refresh: nat, cache: nat, m: nat, life: nat, x: Use, a: Key)
    requires Schedule(qs, refresh, cache, m) && life + refresh <= m * 1000 && Timely(qs, refresh, cache, life, x)
    requires a in At(qs, x.u) && a.status == ACTIVE
    ensures Holds(At(qs, x.v), a)
  {
    NeverStranded(qs, refresh, cache, m, life, x);
    AfterIsValid(qs[..Upto(qs, x.u)]);
    K.ValidHasActive(At(qs, x.u));
    var c, b :| c in At(qs, x.u) && c.status == ACTIVE && b in At(qs, x.v) && IsPublished(b) && b.kid == c.kid
        && b.material == c.material;
    assert c == a;
  }

  lemma SameKidSameKey(ks: seq<Key>, x: Key, y: Key)
    requires Valid(ks) && x in ks && y in ks && x.kid == y.kid
    ensures x == y
  {
  }

  lemma BetweenHolds(qs: seq<Request>, lo: int, hi: int, got: seq<Key>, a: Key)
    requires Between(qs, lo, hi, got) && Holds(At(qs, lo), a) && Holds(At(qs, hi), a)
    ensures Holds(got, a)
  {
    var x :| x in At(qs, lo) && IsPublished(x) && x.kid == a.kid && x.material == a.material;
    var y :| y in At(qs, hi) && IsPublished(y) && y.kid == a.kid && y.material == a.material;
    assert PublishedIn(got, a.kid);
    var b :| b in got && b.kid == a.kid && IsPublished(b);
    AfterIsValid(qs[..Upto(qs, lo)]);
    AfterIsValid(qs[..Upto(qs, hi)]);
    if b in At(qs, lo) { SameKidSameKey(At(qs, lo), b, x); } else { SameKidSameKey(At(qs, hi), b, y); }
  }

  /** Torn reads never strand a token either: if a save takes at most save ms, every promise of NeverStranded holds for
      torn views with save + 1 ms added to the refresh interval. A token signed at s with the view loaded at loadedU is
      verifiable at any t of its life with a copy served from the view loaded at loadedV. */
  lemma TornViewsNeverStrand(qs: seq<Request>, refresh: nat, cache: nat, m: nat, life: nat, save: nat,
                             s: int, loadedU: int, signing: seq<Key>, t: int, loadedV: int, serving: seq<Key>)
    requires Apart(qs) && Schedule(qs, refresh + save + 1, cache, m) && life + refresh + save + 1 <= m * 1000
    requires View(qs, save, loadedU, signing) && s - refresh <= loadedU <= s
    requires View(qs, save, loadedV, serving) && s <= t <= s + life && t - cache - refresh <= loadedV <= t
    requires Has(signing, ACTIVE)
    ensures Holds(serving, K.Signer(signing))
  {
    hide Schedule, Apart, View, Between, At, Holds;
    var a := K.Signer(signing);
    var ulo, uhi := ViewBetween(qs, save, loadedU, signing);
    var vlo, vhi := ViewBetween(qs, save, loadedV, serving);
    var u := if a in At(qs, ulo) then ulo else uhi;
    InSnapshot(qs, ulo, uhi, signing, a);
    SnapshotHolds(qs, refresh + save + 1, cache, m, life, Use(s, u, t, vlo), a);
    SnapshotHolds(qs, refresh + save + 1, cache, m, life, Use(s, u, t, vhi), a);
    BetweenHolds(qs, vlo, vhi, serving, a);
  }

  lemma InSnapshot(qs: seq<Request>, lo: int, hi: int, got: seq<Key>, a: Key)
    requires Between(qs, lo, hi, got) && a in got
    ensures a in At(qs, lo) || a in At(qs, hi)
  {
  }
}
