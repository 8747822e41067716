/** The keyset fingerprint: sorted "kid:status" tags joined by commas. */
module Fingerprint {
  import opened Keyset

  function StatusText(s: Status): string {
    match s
    case NEXT => "NEXT" case ACTIVE => "ACTIVE" case RETIRING => "RETIRING" case RETIRED => "RETIRED"
    case Other(text) => text
  }

  function Tag(k: Key): string {
    k.kid + ":" + StatusText(k.status)
  }

  function Tags(ks: seq<Key>): seq<string> {
    seq(|ks|, i requires 0 <= i < |ks| => Tag(ks[i]))
  }

  /** Lexicographic order of character codes. */
  predicate Leq(a: string, b: string) {
    a == "" || (b != "" && (a[0] < b[0] || (a[0] == b[0] && Leq(a[1..], b[1..]))))
  }

  function Insert(x: string, ss: seq<string>): seq<string> {
    if ss == [] then [x] else if Leq(x, ss[0]) then [x] + ss else [ss[0]] + Insert(x, ss[1..])
  }

  /** Array.prototype.sort on strings. */
  function Sort(ss: seq<string>): seq<string> {
    if ss == [] then [] else Insert(ss[0], Sort(ss[1..]))
  }

  function Join(ss: seq<string>): string {
    if ss == [] then "" else if |ss| == 1 then ss[0] else ss[0] + "," + Join(ss[1..])
  }

  function Of(ks: seq<Key>): string {
    Join(Sort(Tags(ks)))
  }

  // ---- order ----

  lemma {:induction false} LeqTotal(a: string, b: string)
    ensures Leq(a, b) || Leq(b, a)
  {
    if a != "" && b != "" { LeqTotal(a[1..], b[1..]); }
  }

  lemma {:induction false} LeqAntisymmetric(a: string, b: string)
    requires Leq(a, b) && Leq(b, a)
    ensures a == b
  {
    if a != "" {
      LeqAntisymmetric(a[1..], b[1..]);
      assert a == [a[0]] + a[1..] && b == [b[0]] + b[1..];
    }
  }

  lemma {:induction false} LeqTransitive(a: string, b: string, c: string)
    requires Leq(a, b) && Leq(b, c)
    ensures Leq(a, c)
  {
    if a != "" && a[0] == b[0] == c[0] { LeqTransitive(a[1..], b[1..], c[1..]); }
  }

  /** Each element is at most its neighbour. */
  predicate Sorted(ss: seq<string>) {
    |ss| <= 1 || (Leq(ss[0], ss[1]) && Sorted(ss[1..]))
  }

  lemma {:induction false} HeadIsLeast(ss: seq<string>, y: string)
    requires Sorted(ss) && y in ss
    ensures Leq(ss[0], y)
  {
    LeqTotal(y, y);
    if y != ss[0] {
      assert ss == [ss[0]] + ss[1..];
      HeadIsLeast(ss[1..], y);
      LeqTransitive(ss[0], ss[1], y);
    }
  }

  lemma {:induction false} InsertSorts(x: string, ss: seq<string>)
    requires Sorted(ss)
    ensures Sorted(Insert(x, ss)) && multiset(Insert(x, ss)) == multiset{x} + multiset(ss)
    ensures Insert(x, ss)[0] == x || (ss != [] && Insert(x, ss)[0] == ss[0])
  {
    hide Leq;
    if ss != [] {
      assert ss == [ss[0]] + ss[1..];
      if Leq(x, ss[0]) {
        assert ([x] + ss)[1..] == ss;
      } else {
        LeqTotal(x, ss[0]);
        InsertSorts(x, ss[1..]);
        assert Insert(x, ss)[1..] == Insert(x, ss[1..]);
      }
    }
  }

  lemma {:induction false} SortSorts(ss: seq<string>)
    ensures Sorted(Sort(ss)) && multiset(Sort(ss)) == multiset(ss)
  {
    if ss != [] {
      SortSorts(ss[1..]);
      InsertSorts(ss[0], Sort(ss[1..]));
      assert ss == [ss[0]] + ss[1..];
    }
  }

  lemma HeadsAgree(a: seq<string>, b: seq<string>)
    requires Sorted(a) && Sorted(b) && multiset(a) == multiset(b) && a != [] && b != []
    ensures a[0] == b[0]
  {
    hide Leq, Sorted;
    assert a[0] in multiset(b) && b[0] in multiset(a);
    HeadIsLeast(b, a[0]);
    HeadIsLeast(a, b[0]);
    LeqAntisymmetric(a[0], b[0]);
  }

  lemma MultisetOfTail(a: seq<string>)
    requires a != []
    ensures multiset(a[1..]) == multiset(a) - multiset{a[0]}
  {
    assert a == [a[0]] + a[1..];
  }

  /** A sorted arrangement is determined by its elements. */
  lemma {:induction false} SortedIsUnique(a: seq<string>, b: seq<string>)
    requires Sorted(a) && Sorted(b) && multiset(a) == multiset(b)
    ensures a == b
  {
    hide Leq;
    assert |multiset(a)| == |a| && |multiset(b)| == |b|;
    if a != [] {
      HeadsAgree(a, b);
      MultisetOfTail(a);
      MultisetOfTail(b);
      SortedIsUnique(a[1..], b[1..]);
      assert a == [a[0]] + a[1..] && b == [b[0]] + b[1..];
    }
  }

  // ---- joining is injective on comma-free fields ----

  predicate Free(s: string, c: char) {
    forall i :: 0 <= i < |s| ==> s[i] != c
  }

  ghost predicate Fields(ss: seq<string>) {
    forall i :: 0 <= i < |ss| ==> ss[i] != "" && Free(ss[i], ',')
  }

  /** The position of the first c, or the length. */
  function Until(s: string, c: char): nat {
    if s == "" || s[0] == c then 0 else Until(s[1..], c) + 1
  }

  lemma {:induction false} UntilField(a: string, x: string, c: char)
    requires Free(a, c) && (x == "" || x[0] == c)
    ensures Until(a + x, c) == |a|
  {
    if a == "" {
      assert a + x == x;
    } else {
      assert (a + x)[1..] == a[1..] + x;
      UntilField(a[1..], x, c);
    }
  }

  /** Up to the first separator both texts are the first field. */
  lemma SplitAgrees(a: string, x: string, b: string, y: string, c: char)
    requires Free(a, c) && Free(b, c) && (x == "" || x[0] == c) && (y == "" || y[0] == c)
    requires a + x == b + y
    ensures a == b && x == y
  {
    UntilField(a, x, c);
    UntilField(b, y, c);
    assert a == (a + x)[..|a|] && b == (b + y)[..|b|];
    assert x == (a + x)[|a|..] && y == (b + y)[|b|..];
  }

  function Tail(ss: seq<string>): string
    requires ss != []
  {
    if |ss| == 1 then "" else "," + Join(ss[1..])
  }

  lemma JoinTail(ss: seq<string>)
    requires ss != []
    ensures Join(ss) == ss[0] + Tail(ss)
    ensures |ss| > 1 ==> Tail(ss)[1..] == Join(ss[1..])
  {
  }

  lemma {:induction false} JoinInjective(a: seq<string>, b: seq<string>)
    requires Fields(a) && Fields(b) && Join(a) == Join(b)
    ensures a == b
  {
    if a != [] { JoinTail(a); }
    if b != [] { JoinTail(b); }
    if a != [] && b != [] {
      var x, y := Tail(a), Tail(b);
      SplitAgrees(a[0], x, b[0], y, ',');
      assert Fields(a[1..]) && Fields(b[1..]);
      JoinInjective(a[1..], b[1..]);
      assert a == [a[0]] + a[1..] && b == [b[0]] + b[1..];
    }
  }

  // ---- tags ----

  lemma TagInjective(a: Key, b: Key)
    requires KeyOk(a) && KeyOk(b) && Tag(a) == Tag(b)
    ensures a.kid == b.kid && a.status == b.status
  {
    assert Tag(a) == a.kid + (":" + StatusText(a.status)) && Tag(b) == b.kid + (":" + StatusText(b.status));
    SplitAgrees(a.kid, ":" + StatusText(a.status), b.kid, ":" + StatusText(b.status), ':');
    assert StatusText(a.status) == (":" + StatusText(a.status))[1..] == StatusText(b.status);
    assert StatusText(a.status)[0] == StatusText(b.status)[0] && |StatusText(a.status)| == |StatusText(b.status)|;
  }

  lemma TagIsField(k: Key)
    requires KeyOk(k)
    ensures Tag(k) != "" && Free(Tag(k), ',')
  {
    assert Free(StatusText(k.status), ',');
  }

  lemma TagsDistinct(ks: seq<Key>)
    requires Valid(ks)
    ensures forall i, j :: 0 <= i < j < |Tags(ks)| ==> Tags(ks)[i] != Tags(ks)[j]
  {
    forall i, j | 0 <= i < j < |ks| ensures Tag(ks[i]) != Tag(ks[j]) {
      if Tag(ks[i]) == Tag(ks[j]) { TagInjective(ks[i], ks[j]); }
    }
  }

  lemma TagsAreFields(ks: seq<Key>)
    requires Valid(ks)
    ensures Fields(Sort(Tags(ks)))
  {
    SortSorts(Tags(ks));
    forall i | 0 <= i < |Sort(Tags(ks))| ensures Sort(Tags(ks))[i] != "" && Free(Sort(Tags(ks))[i], ',') {
      assert Sort(Tags(ks))[i] in multiset(Tags(ks));
      var j :| 0 <= j < |ks| && Tag(ks[j]) == Sort(Tags(ks))[i];
      TagIsField(ks[j]);
    }
  }

  /** The (kid, status) pairs of a keyset. */
  function Pairs(ks: seq<Key>): set<(string, Status)> {
    set i | 0 <= i < |ks| :: (ks[i].kid, ks[i].status)
  }

  lemma SameTagsSamePairs(a: seq<Key>, b: seq<Key>)
    requires Valid(a) && Valid(b) && multiset(Tags(a)) == multiset(Tags(b))
    ensures Pairs(a) <= Pairs(b)
  {
    forall i | 0 <= i < |a| ensures (a[i].kid, a[i].status) in Pairs(b) {
      assert Tags(a)[i] in multiset(Tags(b));
      var j :| 0 <= j < |b| && Tags(b)[j] == Tags(a)[i];
      TagInjective(a[i], b[j]);
      assert (b[j].kid, b[j].status) in Pairs(b);
    }
  }

  lemma {:induction false} DistinctCount(ss: seq<string>, x: string)
    requires forall i, j :: 0 <= i < j < |ss| ==> ss[i] != ss[j]
    ensures multiset(ss)[x] == if x in ss then 1 else 0
  {
    if ss != [] {
      DistinctCount(ss[1..], x);
      assert ss == [ss[0]] + ss[1..];
    }
  }

  lemma SamePairsSameTags(a: seq<Key>, b: seq<Key>)
    requires Valid(a) && Valid(b) && Pairs(a) == Pairs(b)
    ensures multiset(Tags(a)) == multiset(Tags(b))
  {
    TagsDistinct(a);
    TagsDistinct(b);
    forall x ensures multiset(Tags(a))[x] == multiset(Tags(b))[x] {
      DistinctCount(Tags(a), x);
      DistinctCount(Tags(b), x);
      if x in Tags(a) { PairsCarryTags(a, b, x); }
      if x in Tags(b) { PairsCarryTags(b, a, x); }
    }
  }

  lemma PairsCarryTags(a: seq<Key>, b: seq<Key>, x: string)
    requires Pairs(a) == Pairs(b) && x in Tags(a)
    ensures x in Tags(b)
  {
    var i :| 0 <= i < |a| && Tags(a)[i] == x;
    assert (a[i].kid, a[i].status) in Pairs(b);
    var j :| 0 <= j < |b| && (b[j].kid, b[j].status) == (a[i].kid, a[i].status);
    assert Tags(b)[j] == x;
  }

  /** On valid keysets the fingerprint is equal exactly when the keysets have the same kids with the same statuses. */
  lemma EqualExactlyWhenSamePairs(a: seq<Key>, b: seq<Key>)
    requires Valid(a) && Valid(b)
    ensures Of(a) == Of(b) <==> Pairs(a) == Pairs(b)
  {
    SortSorts(Tags(a));
    SortSorts(Tags(b));
    if Of(a) == Of(b) {
      TagsAreFields(a);
      TagsAreFields(b);
      JoinInjective(Sort(Tags(a)), Sort(Tags(b)));
      SameTagsSamePairs(a, b);
      SameTagsSamePairs(b, a);
    }
    if Pairs(a) == Pairs(b) {
      SamePairsSameTags(a, b);
      SortedIsUnique(Sort(Tags(a)), Sort(Tags(b)));
    }
  }
}
