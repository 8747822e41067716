/** Unpadded base64url (section 5 of RFC 4648) as the runtime writes and, more leniently, reads it. */
module Base64Url {
  type Byte = x: int | 0 <= x < 256

  type Sextet = x: int | 0 <= x < 64

  // ---- the alphabet ----

  predicate IsSymbol(c: char) {
    'A' <= c <= 'Z' || 'a' <= c <= 'z' || '0' <= c <= '9' || c == '-' || c == '_'
  }

  predicate IsText(s: string) {
    forall i :: 0 <= i < |s| ==> IsSymbol(s[i])
  }

  function Symbol(v: Sextet): (c: char)
    ensures IsSymbol(c)
  {
    if v < 26 then 'A' + v as char
    else if v < 52 then 'a' + (v - 26) as char
    else if v < 62 then '0' + (v - 52) as char
    else if v == 62 then '-'
    else '_'
  }

  function SymbolValue(c: char): (v: Sextet)
    requires IsSymbol(c)
    ensures Symbol(v) == c
  {
    if 'A' <= c <= 'Z' then c as int - 'A' as int
    else if 'a' <= c <= 'z' then c as int - 'a' as int + 26
    else if '0' <= c <= '9' then c as int - '0' as int + 52
    else if c == '-' then 62
    else 63
  }

  lemma SymbolRoundTrip(v: Sextet)
    ensures SymbolValue(Symbol(v)) == v
  {
  }

  /** The alphabet of section 5 of RFC 4648: letters, digits, minus and underscore, in this order. */
  lemma AlphabetInOrder(v: Sextet)
    ensures Symbol(0) == 'A' && Symbol(26) == 'a' && Symbol(52) == '0' && Symbol(62) == '-' && Symbol(63) == '_'
    ensures 0 < v < 62 && v != 26 && v != 52 ==> Symbol(v) as int == Symbol(v - 1) as int + 1
  {
  }

  function Text(v: seq<Sextet>): (s: string)
    ensures |s| == |v| && IsText(s)
  {
    seq(|v|, i requires 0 <= i < |v| => Symbol(v[i]))
  }

  function Values(s: string): (v: seq<Sextet>)
    requires IsText(s)
    ensures |v| == |s|
  {
    seq(|s|, i requires 0 <= i < |s| => SymbolValue(s[i]))
  }

  lemma TextOfValues(s: string)
    requires IsText(s)
    ensures Text(Values(s)) == s
  {
  }

  lemma ValuesOfText(v: seq<Sextet>)
    ensures Values(Text(v)) == v
  {
    forall i | 0 <= i < |v| ensures Values(Text(v))[i] == v[i] {
      SymbolRoundTrip(v[i]);
    }
  }

  // ---- groups of bits ----

  /** The four sextets of three bytes. */
  function Group(x: Byte, y: Byte, z: Byte): seq<Sextet> {
    [x / 4, x % 4 * 16 + y / 16, y % 16 * 4 + z / 64, z % 64]
  }

  function First(v0: Sextet, v1: Sextet): Byte {
    v0 * 4 + v1 / 16
  }

  function Second(v1: Sextet, v2: Sextet): Byte {
    v1 % 16 * 16 + v2 / 4
  }

  function Third(v2: Sextet, v3: Sextet): Byte {
    v2 % 4 * 64 + v3
  }

  /** One or two bytes left over make two or three sextets, the unused low bits zero. */
  function Sextets(b: seq<Byte>): seq<Sextet> {
    if |b| == 0 then []
    else if |b| == 1 then Group(b[0], 0, 0)[..2]
    else if |b| == 2 then Group(b[0], b[1], 0)[..3]
    else Group(b[0], b[1], b[2]) + Sextets(b[3..])
  }

  /** A single sextet left over is dropped, and so are unused low bits. */
  function Bytes(v: seq<Sextet>): seq<Byte> {
    if |v| < 2 then []
    else if |v| == 2 then [First(v[0], v[1])]
    else if |v| == 3 then [First(v[0], v[1]), Second(v[1], v[2])]
    else [First(v[0], v[1]), Second(v[1], v[2]), Third(v[2], v[3])] + Bytes(v[4..])
  }

  lemma GroupRoundTrip(x: Byte, y: Byte, z: Byte)
    ensures var v := Group(x, y, z); First(v[0], v[1]) == x && Second(v[1], v[2]) == y && Third(v[2], v[3]) == z
  {
  }

  lemma {:induction false} BytesOfSextets(b: seq<Byte>)
    ensures Bytes(Sextets(b)) == b
  {
    if |b| == 1 {
      GroupRoundTrip(b[0], 0, 0);
    } else if |b| == 2 {
      GroupRoundTrip(b[0], b[1], 0);
    } else if |b| > 2 {
      BytesOfSextets(b[3..]);
      GroupRoundTrip(b[0], b[1], b[2]);
      assert Sextets(b)[4..] == Sextets(b[3..]);
      assert b == [b[0], b[1], b[2]] + b[3..];
    }
  }

  /** The spelling that the encoder would choose: no lone last sextet and no unused bit set. */
  predicate IsTight(v: seq<Sextet>) {
    match |v| % 4
    case 0 => true
    case 1 => false
    case 2 => v[|v| - 1] % 16 == 0
    case _ => v[|v| - 1] % 4 == 0
  }

  lemma Join4(hi: nat, lo: nat)
    requires lo < 4
    ensures (hi * 4 + lo) / 4 == hi && (hi * 4 + lo) % 4 == lo
  {
  }

  lemma Join16(hi: nat, lo: nat)
    requires lo < 16
    ensures (hi * 16 + lo) / 16 == hi && (hi * 16 + lo) % 16 == lo
  {
  }

  lemma Join64(hi: nat, lo: nat)
    requires lo < 64
    ensures (hi * 64 + lo) / 64 == hi && (hi * 64 + lo) % 64 == lo
  {
  }

  lemma UngroupTwo(v0: Sextet, v1: Sextet)
    ensures Group(First(v0, v1), 0, 0)[..2] == [v0, v1 / 16 * 16]
  {
    Join4(v0, v1 / 16);
  }

  /** The middle sextet is put together from the two bytes that share it. */
  lemma Shared(x: Byte, y: Byte, v1: Sextet)
    requires x % 4 == v1 / 16 && y / 16 == v1 % 16
    ensures x % 4 * 16 + y / 16 == v1
  {
  }

  lemma UngroupThree(v0: Sextet, v1: Sextet, v2: Sextet)
    ensures Group(First(v0, v1), Second(v1, v2), 0)[..3] == [v0, v1, v2 / 4 * 4]
  {
    Join4(v0, v1 / 16);
    Join16(v1 % 16, v2 / 4);
    Shared(First(v0, v1), Second(v1, v2), v1);
  }

  lemma SharedAgain(y: Byte, z: Byte, v2: Sextet)
    requires y % 16 == v2 / 4 && z / 64 == v2 % 4
    ensures y % 16 * 4 + z / 64 == v2
  {
  }

  lemma UngroupFour(v0: Sextet, v1: Sextet, v2: Sextet, v3: Sextet)
    ensures Group(First(v0, v1), Second(v1, v2), Third(v2, v3)) == [v0, v1, v2, v3]
  {
    Join4(v0, v1 / 16);
    Join16(v1 % 16, v2 / 4);
    Join64(v2 % 4, v3);
    Shared(First(v0, v1), Second(v1, v2), v1);
    SharedAgain(Second(v1, v2), Third(v2, v3), v2);
  }

  lemma SextetsPrepend(x: Byte, y: Byte, z: Byte, b: seq<Byte>)
    ensures Sextets([x, y, z] + b) == Group(x, y, z) + Sextets(b)
  {
    assert ([x, y, z] + b)[3..] == b;
  }

  lemma BytesPrefix(v: seq<Sextet>)
    requires 4 <= |v|
    ensures Bytes(v) == [First(v[0], v[1]), Second(v[1], v[2]), Third(v[2], v[3])] + Bytes(v[4..])
  {
  }

  lemma UngroupStep(v: seq<Sextet>)
    requires 4 <= |v|
    ensures Sextets(Bytes(v)) == v[..4] + Sextets(Bytes(v[4..]))
  {
    BytesPrefix(v);
    UngroupFour(v[0], v[1], v[2], v[3]);
    assert v[..4] == [v[0], v[1], v[2], v[3]];
    SextetsPrepend(First(v[0], v[1]), Second(v[1], v[2]), Third(v[2], v[3]), Bytes(v[4..]));
  }

  lemma SextetsOfTwo(x: Byte, y: Byte)
    ensures Sextets([x, y]) == Group(x, y, 0)[..3]
  {
  }

  lemma BytesOfThree(v0: Sextet, v1: Sextet, v2: Sextet)
    ensures Bytes([v0, v1, v2]) == [First(v0, v1), Second(v1, v2)]
  {
  }

  lemma TwoRoundTrip(v0: Sextet, v1: Sextet)
    ensures Sextets(Bytes([v0, v1])) == [v0, v1 / 16 * 16]
  {
    UngroupTwo(v0, v1);
  }

  lemma ThreeRoundTrip(v0: Sextet, v1: Sextet, v2: Sextet)
    ensures Sextets(Bytes([v0, v1, v2])) == [v0, v1, v2 / 4 * 4]
  {
    BytesOfThree(v0, v1, v2);
    SextetsOfTwo(First(v0, v1), Second(v1, v2));
    UngroupThree(v0, v1, v2);
  }

  /** Clearing the last sextet's low bits changes nothing exactly when they were zero. */
  lemma ClearedLast(v: seq<Sextet>, unit: int)
    requires v != [] && 0 < unit
    ensures v[|v| - 1 := v[|v| - 1] / unit * unit] == v <==> v[|v| - 1] % unit == 0
  {
    var last := v[|v| - 1];
    assert last / unit * unit + last % unit == last;
    assert v[|v| - 1 := last / unit * unit][|v| - 1] == last / unit * unit;
  }

  lemma ShortTwo(v: seq<Sextet>)
    requires |v| == 2
    ensures Sextets(Bytes(v)) == v[1 := v[1] / 16 * 16]
  {
    var v0, v1 := v[0], v[1];
    var w := v1 / 16 * 16;
    assert v == [v0, v1] && v[1 := w] == [v0, w];
    TwoRoundTrip(v0, v1);
  }

  lemma ShortThree(v: seq<Sextet>)
    requires |v| == 3
    ensures Sextets(Bytes(v)) == v[2 := v[2] / 4 * 4]
  {
    var v0, v1, v2 := v[0], v[1], v[2];
    var w := v2 / 4 * 4;
    assert v == [v0, v1, v2] && v[2 := w] == [v0, v1, w];
    ThreeRoundTrip(v0, v1, v2);
  }

  lemma TightStep(v: seq<Sextet>)
    requires 4 <= |v|
    ensures IsTight(v) == IsTight(v[4..])
  {
  }

  lemma SamePrefix(h: seq<Sextet>, s: seq<Sextet>, t: seq<Sextet>)
    ensures h + s == h + t <==> s == t
  {
    assert (h + s)[|h|..] == s && (h + t)[|h|..] == t;
  }

  lemma {:induction false} SextetsOfBytes(v: seq<Sextet>)
    ensures Sextets(Bytes(v)) == v <==> IsTight(v)
  {
    if |v| == 2 {
      ShortTwo(v);
      ClearedLast(v, 16);
    } else if |v| == 3 {
      ShortThree(v);
      ClearedLast(v, 4);
    } else if 4 <= |v| {
      SextetsOfBytes(v[4..]);
      UngroupStep(v);
      TightStep(v);
      SamePrefix(v[..4], Sextets(Bytes(v[4..])), v[4..]);
      assert v == v[..4] + v[4..];
    }
  }

  // ---- the codec ----

  function Encode(b: seq<Byte>): (s: string)
    ensures IsText(s) && (s == "" <==> b == [])
  {
    Text(Sextets(b))
  }

  function Decode(s: string): seq<Byte>
    requires IsText(s)
  {
    Bytes(Values(s))
  }

  lemma DecodeEncode(b: seq<Byte>)
    ensures Decode(Encode(b)) == b
  {
    ValuesOfText(Sextets(b));
    BytesOfSextets(b);
  }

  predicate IsCanonical(s: string)
    requires IsText(s)
  {
    IsTight(Values(s))
  }

  /** Reading loses something exactly on the spellings that the encoder never writes. */
  lemma EncodeDecode(s: string)
    requires IsText(s)
    ensures Encode(Decode(s)) == s <==> IsCanonical(s)
  {
    SextetsOfBytes(Values(s));
    TextOfValues(s);
    ValuesOfText(Sextets(Decode(s)));
  }

  /** The bit layout of section 4 of RFC 4648: three bytes are four symbols of six bits each, most significant first,
      and one or two left over are two or three symbols, padded with zero bits. */
  lemma Layout(a: Byte, b: Byte, c: Byte, rest: seq<Byte>)
    ensures Sextets([a, b, c] + rest) == [a / 4, a % 4 * 16 + b / 16, b % 16 * 4 + c / 64, c % 64] + Sextets(rest)
    ensures Sextets([a, b]) == [a / 4, a % 4 * 16 + b / 16, b % 16 * 4]
    ensures Sextets([a]) == [a / 4, a % 4 * 16]
  {
    assert ([a, b, c] + rest)[3..] == rest;
  }

  lemma EncodeAppends(a: Byte, b: Byte, c: Byte, rest: seq<Byte>)
    ensures Encode([a, b, c] + rest)
            == [Symbol(a / 4), Symbol(a % 4 * 16 + b / 16), Symbol(b % 16 * 4 + c / 64), Symbol(c % 64)] + Encode(rest)
  {
    hide Sextets, Symbol;
    Layout(a, b, c, rest);
  }
}
