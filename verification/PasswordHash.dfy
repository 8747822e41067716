/** The text format of password hashes, its reader, and the hasher that uses them. */
module PasswordHash {
  import opened Wrappers
  import opened Base64Url

  const MAX_PASSWORD_LENGTH := 256

  // scrypt parameters of new hashes
  const LN := 15
  const R := 8
  const P := 1
  const KEY_BYTES := 32
  const SALT_BYTES := 16

  // ---- decimal numbers ----

  predicate IsDigits(s: string) {
    forall i :: 0 <= i < |s| ==> '0' <= s[i] <= '9'
  }

  function Decimal(n: nat): string {
    if n < 10 then ['0' + n as char] else Decimal(n / 10) + ['0' + (n % 10) as char]
  }

  function Number(s: string): nat
    requires IsDigits(s)
  {
    if s == "" then 0 else Number(s[..|s| - 1]) * 10 + (s[|s| - 1] as int - '0' as int)
  }

  lemma {:induction false} NumberDecimal(n: nat)
    ensures IsDigits(Decimal(n)) && Number(Decimal(n)) == n
    ensures |Decimal(n)| <= 2 <==> n < 100
    ensures Decimal(n) != ""
  {
    if 10 <= n {
      NumberDecimal(n / 10);
      assert Decimal(n)[..|Decimal(n)| - 1] == Decimal(n / 10);
      if 100 <= n && n / 10 < 100 { assert |Decimal(n / 10)| == |Decimal(n / 100)| + 1; }
    }
  }

  // ---- the format ----

  /** The five capture groups of the reader's pattern. */
  datatype Pieces = Pieces(ln: string, r: string, p: string, salt: string, hash: string)

  predicate IsNumeral(s: string) {
    1 <= |s| <= 2 && IsDigits(s)
  }

  predicate WellFormed(x: Pieces) {
    && IsNumeral(x.ln) && IsNumeral(x.r) && IsNumeral(x.p)
    && x.salt != "" && IsText(x.salt) && x.hash != "" && IsText(x.hash)
  }

  function Render(x: Pieces): string {
    "scrypt$ln=" + x.ln + ",r=" + x.r + ",p=" + x.p + "$" + x.salt + "$" + x.hash
  }

  /** What follows a literal. */
  function After(s: string, literal: string): Option<string> {
    if literal <= s then Some(s[|literal|..]) else None
  }

  /** What precedes the first c, and the rest from there on. */
  function Until(s: string, c: char): (string, string) {
    if s == "" || s[0] == c then ("", s)
    else var r := Until(s[1..], c); ([s[0]] + r.0, r.1)
  }

  function Field(s: string, literal: string, stop: char): Option<(string, string)> {
    match After(s, literal)
    case None => None
    case Some(t) => Some(Until(t, stop))
  }

  /** Matches the pattern. Its classes exclude the separators, so each group ends at the next one. */
  function Split(e: string): Option<Pieces> {
    match Field(e, "scrypt$ln=", ',') case None => None case Some(ln) =>
    match Field(ln.1, ",r=", ',') case None => None case Some(r) =>
    match Field(r.1, ",p=", '$') case None => None case Some(p) =>
    match Field(p.1, "$", '$') case None => None case Some(salt) =>
    match After(salt.1, "$") case None => None case Some(hash) =>
    var x := Pieces(ln.0, r.0, p.0, salt.0, hash);
    if WellFormed(x) then Some(x) else None
  }

  lemma UntilOfNothing(c: char)
    ensures Until("", c) == ("", "")
  {
  }

  lemma UntilStops(s: string, c: char)
    requires s != "" && s[0] == c
    ensures Until(s, c) == ("", s)
  {
  }

  lemma UntilGoesOn(s: string, c: char)
    requires s != "" && s[0] != c
    ensures Until(s, c) == ([s[0]] + Until(s[1..], c).0, Until(s[1..], c).1)
  {
  }

  lemma {:induction false} UntilSplits(s: string, c: char)
    ensures var r := Until(s, c); r.0 + r.1 == s && c !in r.0
  {
    hide Until;
    if s == "" {
      UntilOfNothing(c);
    } else if s[0] == c {
      UntilStops(s, c);
    } else {
      UntilGoesOn(s, c);
      UntilSplits(s[1..], c);
      var r := Until(s[1..], c);
      assert [s[0]] + r.0 + r.1 == [s[0]] + (r.0 + r.1) == s;
    }
  }

  lemma {:induction false} UntilFinds(a: string, c: char, b: string)
    requires c !in a
    ensures Until(a + [c] + b, c) == (a, [c] + b)
  {
    hide Until;
    var s := a + [c] + b;
    if a == "" {
      assert s == [c] + b;
      UntilStops(s, c);
    } else {
      var tail := a[1..];
      assert s[0] == a[0] && s[1..] == tail + [c] + b;
      UntilGoesOn(s, c);
      UntilFinds(tail, c, b);
      assert [a[0]] + tail == a;
    }
  }

  lemma FieldFinds(literal: string, a: string, c: char, b: string)
    requires c !in a
    ensures Field(literal + a + ([c] + b), literal, c) == Some((a, [c] + b))
  {
    var s := literal + a + ([c] + b);
    assert s[|literal|..] == a + [c] + b;
    UntilFinds(a, c, b);
  }

  predicate NoSeparators(s: string) {
    ',' !in s && '$' !in s
  }

  /** Fields without separators are cut out again, well formed or not. */
  lemma SplitRender(x: Pieces)
    requires NoSeparators(x.ln) && NoSeparators(x.r) && NoSeparators(x.p) && NoSeparators(x.salt)
    ensures Split(Render(x)) == if WellFormed(x) then Some(x) else None
  {
    hide Until, Field;
    var tail4 := "$" + x.hash;
    var tail3 := "$" + x.salt + tail4;
    var tail2 := ",p=" + x.p + tail3;
    var tail1 := ",r=" + x.r + tail2;
    assert Render(x) == "scrypt$ln=" + x.ln + tail1;
    assert tail1 == [','] + ("r=" + x.r + tail2);
    assert tail2 == [','] + ("p=" + x.p + tail3);
    assert tail3 == ['$'] + (x.salt + tail4);
    FieldFinds("scrypt$ln=", x.ln, ',', "r=" + x.r + tail2);
    FieldFinds(",r=", x.r, ',', "p=" + x.p + tail3);
    FieldFinds(",p=", x.p, '$', x.salt + tail4);
    FieldFinds("$", x.salt, '$', x.hash);
    assert tail4[1..] == x.hash;
  }

  lemma FieldSound(s: string, literal: string, stop: char)
    ensures var f := Field(s, literal, stop); f.Some? ==> s == literal + f.value.0 + f.value.1
  {
    if Field(s, literal, stop).Some? {
      var rest := s[|literal|..];
      var (front, back) := Until(rest, stop);
      UntilSplits(rest, stop);
      assert s == literal + rest;
      assert rest == front + back;
    }
  }

  lemma WellFormedHasNoSeparators(x: Pieces)
    requires WellFormed(x)
    ensures NoSeparators(x.ln) && NoSeparators(x.r) && NoSeparators(x.p) && NoSeparators(x.salt)
  {
  }

  lemma Chained(e: string, l1: string, x1: string, r1: string, l2: string, x2: string, r2: string,
                l3: string, x3: string, r3: string, l4: string, x4: string, r4: string, l5: string, x5: string)
    requires e == l1 + x1 + r1 && r1 == l2 + x2 + r2 && r2 == l3 + x3 + r3 && r3 == l4 + x4 + r4 && r4 == l5 + x5
    ensures e == l1 + x1 + l2 + x2 + l3 + x3 + l4 + x4 + l5 + x5
  {
  }

  lemma SplitSound(e: string)
    requires Split(e).Some?
    ensures WellFormed(Split(e).value) && e == Render(Split(e).value)
  {
    var x := Split(e).value;
    var ln := Field(e, "scrypt$ln=", ',').value;
    var r := Field(ln.1, ",r=", ',').value;
    var p := Field(r.1, ",p=", '$').value;
    var salt := Field(p.1, "$", '$').value;
    FieldSound(e, "scrypt$ln=", ',');
    FieldSound(ln.1, ",r=", ',');
    FieldSound(r.1, ",p=", '$');
    FieldSound(p.1, "$", '$');
    Chained(e, "scrypt$ln=", x.ln, ln.1, ",r=", x.r, r.1, ",p=", x.p, p.1, "$", x.salt, salt.1, "$", x.hash);
  }

  /** Split is the pattern: it answers x exactly when x is well formed and the text is x written out. */
  lemma SplitIsThePattern(e: string, x: Pieces)
    ensures Split(e) == Some(x) <==> WellFormed(x) && e == Render(x)
  {
    if Split(e).Some? { SplitSound(e); }
    if WellFormed(x) && e == Render(x) {
      WellFormedHasNoSeparators(x);
      SplitRender(x);
    }
  }

  // ---- parse and print ----

  datatype Parsed = Parsed(ln: nat, r: nat, p: nat, salt: seq<Byte>, hash: seq<Byte>)

  function Parse(e: string): Option<Parsed> {
    match Split(e)
    case None => None
    case Some(x) =>
      SplitIsThePattern(e, x);
      Some(Parsed(Number(x.ln), Number(x.r), Number(x.p), Decode(x.salt), Decode(x.hash)))
  }

  function Spelled(x: Parsed): Pieces {
    Pieces(Decimal(x.ln), Decimal(x.r), Decimal(x.p), Encode(x.salt), Encode(x.hash))
  }

  function Print(x: Parsed): string {
    Render(Spelled(x))
  }

  /** A new hash is written as in the documented format. */
  lemma PrintedForm(salt: seq<Byte>, hash: seq<Byte>)
    ensures Print(Parsed(15, 8, 1, salt, hash)) == "scrypt$ln=15,r=8,p=1$" + Encode(salt) + "$" + Encode(hash)
  {
    assert Decimal(15) == "15" && Decimal(8) == "8" && Decimal(1) == "1";
    assert "scrypt$ln=" + "15" + ",r=" + "8" + ",p=" + "1" + "$" == "scrypt$ln=15,r=8,p=1$";
  }

  predicate Printable(x: Parsed) {
    x.ln < 100 && x.r < 100 && x.p < 100 && x.salt != [] && x.hash != []
  }

  lemma DecimalIsClean(n: nat)
    ensures NoSeparators(Decimal(n)) && (IsNumeral(Decimal(n)) <==> n < 100)
  {
    NumberDecimal(n);
  }

  lemma TextIsClean(s: string)
    requires IsText(s)
    ensures NoSeparators(s)
  {
  }

  lemma SpelledIsClean(x: Parsed)
    ensures var s := Spelled(x);
            && NoSeparators(s.ln) && NoSeparators(s.r) && NoSeparators(s.p) && NoSeparators(s.salt)
            && (WellFormed(s) <==> Printable(x))
  {
    DecimalIsClean(x.ln);
    DecimalIsClean(x.r);
    DecimalIsClean(x.p);
    TextIsClean(Encode(x.salt));
  }

  /** The reader recovers everything from what the printer writes, exactly for numbers below 100 and non-empty bytes. */
  lemma ParsePrint(x: Parsed)
    ensures Parse(Print(x)) == if Printable(x) then Some(x) else None
  {
    SpelledIsClean(x);
    SplitRender(Spelled(x));
    NumberDecimal(x.ln);
    NumberDecimal(x.r);
    NumberDecimal(x.p);
    DecodeEncode(x.salt);
    DecodeEncode(x.hash);
  }

  predicate IsPlainNumeral(s: string)
    requires IsNumeral(s)
  {
    |s| == 1 || s[0] != '0'
  }

  lemma DecimalNumber(s: string)
    requires IsNumeral(s)
    ensures Decimal(Number(s)) == s <==> IsPlainNumeral(s)
  {
    var d := s[|s| - 1] as int - '0' as int;
    if |s| == 1 {
      assert Number(s[..0]) == 0;
      assert Number(s) == d;
    } else {
      var t := s[..1];
      assert Number(t[..0]) == 0;
      assert Number(t) == t[0] as int - '0' as int;
      assert Number(s) == Number(t) * 10 + d;
    }
  }

  /** Printing a parsed text gives the same text exactly when it has no leading zero and canonical base64url. */
  lemma PrintParse(e: string)
    requires Parse(e).Some?
    ensures var x := Split(e).value;
            && WellFormed(x)
            && (Print(Parse(e).value) == e <==>
                 IsPlainNumeral(x.ln) && IsPlainNumeral(x.r) && IsPlainNumeral(x.p) && IsCanonical(x.salt)
                   && IsCanonical(x.hash))
  {
    var x := Split(e).value;
    SplitIsThePattern(e, x);
    var y := Spelled(Parse(e).value);
    SpelledIsClean(Parse(e).value);
    WellFormedHasNoSeparators(x);
    SplitRender(x);
    SplitRender(y);
    DecimalNumber(x.ln);
    DecimalNumber(x.r);
    DecimalNumber(x.p);
    EncodeDecode(x.salt);
    EncodeDecode(x.hash);
    assert Render(y) == Render(x) ==> x == y by {
      if Render(y) == Render(x) {
        SplitIsThePattern(e, x);
        assert Split(Render(y)) == Some(x);
      }
    }
  }

  // ---- the hasher ----

  /** The foreign scrypt: password, salt, key length, log2 N, r, p; None when the call rejects its parameters. */
  type Scrypt = (string, seq<Byte>, nat, nat, nat, nat) -> Option<seq<Byte>>

  /** Its contract: keys have the requested length, and the parameters of new hashes are never rejected. */
  ghost predicate Honest(scrypt: Scrypt) {
    && (forall pw: string, salt: seq<Byte>, n: nat, ln: nat, r: nat, p: nat ::
          scrypt(pw, salt, n, ln, r, p).Some? ==> |scrypt(pw, salt, n, ln, r, p).value| == n)
    && (forall pw: string, salt: seq<Byte> :: scrypt(pw, salt, KEY_BYTES, LN, R, P).Some?)
  }

  predicate InRange(password: string) {
    0 < |password| <= MAX_PASSWORD_LENGTH
  }

  /** A stored text that verify computes a key for. */
  predicate Usable(encoded: Option<string>) {
    encoded.Some? && Parse(encoded.value).Some? && 14 <= Parse(encoded.value).value.ln <= 20
  }

  /** A text with the parameters of new hashes. */
  predicate Current(encoded: string) {
    var x := Parse(encoded);
    x.Some? && x.value.ln == LN && x.value.r == R && x.value.p == P && |x.value.hash| == KEY_BYTES
  }

  /** The text of a new hash. */
  function Hashed(key: seq<Byte>, salt: seq<Byte>): string {
    Print(Parsed(LN, R, P, salt, key))
  }

  datatype Rejected = PasswordLength | ScryptParameters

  /** What verify decides. */
  function Verdict(scrypt: Scrypt, password: string, encoded: Option<string>): Result<bool, Rejected> {
    if !InRange(password) || !Usable(encoded) then Ok(false)
    else
      var x := Parse(encoded.value).value;
      match scrypt(password, x.salt, |x.hash|, x.ln, x.r, x.p)
      case None => Err(ScryptParameters)
      case Some(key) => Ok(key == x.hash)
  }

  predicate NeedsRehash(encoded: string) {
    var x := Parse(encoded);
    x.None? || x.value.ln < LN || x.value.r != R || x.value.p != P
  }

  /** A new hash parses back to what it was made of, is usable and needs no rehash. */
  lemma HashedIsCurrent(key: seq<Byte>, salt: seq<Byte>)
    requires |key| == KEY_BYTES && |salt| == SALT_BYTES
    ensures Parse(Hashed(key, salt)) == Some(Parsed(LN, R, P, salt, key))
    ensures Current(Hashed(key, salt)) && Usable(Some(Hashed(key, salt))) && !NeedsRehash(Hashed(key, salt))
  {
    ParsePrint(Parsed(LN, R, P, salt, key));
  }

  /** What verify answers on anything the printer can write: yes exactly for a password of an accepted length whose
      scrypt key is the stored one, under cost parameters that the reader accepts; an error exactly if scrypt rejects
      those parameters. */
  lemma VerdictOnPrinted(scrypt: Scrypt, password: string, x: Parsed)
    requires Printable(x)
    ensures var v := Verdict(scrypt, password, Some(Print(x)));
            var computed := 1 <= |password| <= 256 && 14 <= x.ln <= 20;
            var key := scrypt(password, x.salt, |x.hash|, x.ln, x.r, x.p);
            && (v == Ok(true) <==> computed && key == Some(x.hash))
            && (v == Err(ScryptParameters) <==> computed && key == None)
            && (v.Err? ==> v.error == ScryptParameters)
  {
    ParsePrint(x);
  }

  /** A missing or unreadable text never verifies. */
  lemma VerdictOnUnreadable(scrypt: Scrypt, password: string, encoded: Option<string>)
    requires encoded.Some? ==> Split(encoded.value).None?
    ensures Verdict(scrypt, password, encoded) == Ok(false)
  {
  }

  /** A stored hash is replaced exactly if it is unreadable, of lower cost, or of other block parameters. */
  lemma RehashedWhen(x: Parsed, encoded: string)
    requires Printable(x)
    ensures NeedsRehash(Print(x)) <==> x.ln < 15 || x.r != 8 || x.p != 1
    ensures Split(encoded).None? ==> NeedsRehash(encoded)
  {
    ParsePrint(x);
  }

  /** A password verifies against a new hash exactly when scrypt gives it the same key; the password hashed does. */
  lemma HashVerifies(scrypt: Scrypt, password: string, other: string, salt: seq<Byte>)
    requires Honest(scrypt) && InRange(other) && |salt| == SALT_BYTES
    ensures var key := scrypt(password, salt, KEY_BYTES, LN, R, P).value;
            Verdict(scrypt, other, Some(Hashed(key, salt))) == Ok(scrypt(other, salt, KEY_BYTES, LN, R, P) == Some(key))
  {
    assert scrypt(password, salt, KEY_BYTES, LN, R, P).Some?;
    HashedIsCurrent(scrypt(password, salt, KEY_BYTES, LN, R, P).value, salt);
  }

  lemma DecodesToNothing(s: string)
    requires IsText(s)
    ensures Decode(s) == [] <==> |s| < 2
  {
  }

  /** A key function with keys that differ from a given one in every byte. */
  function Elsewhere(key: seq<Byte>): Scrypt {
    (pw: string, salt: seq<Byte>, n: nat, ln: nat, r: nat, p: nat) =>
      Some(seq(n, i => if 0 <= i < |key| && key[i] == 0 then 1 else 0))
  }

  lemma ElsewhereIsHonest(key: seq<Byte>)
    ensures Honest(Elsewhere(key))
  {
  }

  lemma NoBytesMatch(scrypt: Scrypt, password: string, encoded: string)
    requires Honest(scrypt) && Usable(Some(encoded)) && InRange(password) && Parse(encoded).value.hash == []
    ensures Verdict(scrypt, password, Some(encoded)) != Ok(false)
  {
    var x := Parse(encoded).value;
    var key := scrypt(password, x.salt, 0, x.ln, x.r, x.p);
    assert key.Some? ==> |key.value| == 0;
  }

  lemma SomeBytesDiffer(password: string, encoded: string)
    requires Usable(Some(encoded)) && InRange(password) && Parse(encoded).value.hash != []
    ensures Verdict(Elsewhere(Parse(encoded).value.hash), password, Some(encoded)) == Ok(false)
  {
    var x := Parse(encoded).value;
    var got := Elsewhere(x.hash)(password, x.salt, |x.hash|, x.ln, x.r, x.p).value;
    assert got[0] != x.hash[0];
  }

  /** Whatever scrypt is, a usable text refuses no password exactly if its hash group is a single symbol: that decodes
      to no bytes, and a key of no bytes always matches. From two symbols on the answer depends on the key. */
  lemma HashGroupDecides(encoded: string, password: string)
    requires Usable(Some(encoded)) && InRange(password)
    ensures Split(encoded).Some?
    ensures (forall scrypt: Scrypt :: Honest(scrypt) ==> Verdict(scrypt, password, Some(encoded)) != Ok(false)) <==>
        |Split(encoded).value.hash| == 1
  {
    var x := Split(encoded).value;
    SplitIsThePattern(encoded, x);
    DecodesToNothing(x.hash);
    assert Parse(encoded).value.hash == Decode(x.hash);
    if Parse(encoded).value.hash == [] {
      forall scrypt: Scrypt | Honest(scrypt) ensures Verdict(scrypt, password, Some(encoded)) != Ok(false) {
        NoBytesMatch(scrypt, password, encoded);
      }
    } else {
      ElsewhereIsHonest(Parse(encoded).value.hash);
      SomeBytesDiffer(password, encoded);
    }
  }

  /** Random bytes drawn by a call, in case it has to make the dummy hash. */
  datatype Random = Random(password: seq<Byte>, salt: seq<Byte>)

  predicate Drawn(random: Random) {
    |random.password| == 24 && |random.salt| == SALT_BYTES
  }

  /** 24 bytes are 32 symbols, within the password length. */
  lemma DummyPasswordInRange(random: Random)
    requires Drawn(random)
    ensures |Encode(random.password)| == 32
  {
    EncodedLength(random.password);
  }

  lemma {:induction false} EncodedLength(b: seq<Byte>)
    ensures |Encode(b)| == |b| / 3 * 4 + (if |b| % 3 == 0 then 0 else |b| % 3 + 1)
  {
    if 2 < |b| { EncodedLength(b[3..]); }
  }

  lemma EmptyDoesNotParse()
    ensures Parse("").None?
  {
  }

  class PasswordHasher {
    const scrypt: Scrypt
    var dummyHash: Option<string>

    ghost predicate Valid()
      reads this
    {
      Honest(scrypt) && (dummyHash.Some? ==> Current(dummyHash.value))
    }

    constructor (scrypt: Scrypt)
      requires Honest(scrypt)
      ensures Valid() && this.scrypt == scrypt && dummyHash == None
    {
      this.scrypt := scrypt;
      dummyHash := None;
    }

    method Hash(password: string, salt: seq<Byte>) returns (r: Result<string, Rejected>)
      requires Honest(scrypt) && |salt| == SALT_BYTES
      ensures r.Ok? <==> InRange(password)
      ensures r.Ok? ==> Verdict(scrypt, password, Some(r.value)) == Ok(true) && !NeedsRehash(r.value)
      ensures r.Ok? ==> r.value == Hashed(scrypt(password, salt, KEY_BYTES, LN, R, P).value, salt)
      ensures r.Err? ==> r.error == PasswordLength
    {
      if !InRange(password) { return Err(PasswordLength); }
      var key := scrypt(password, salt, KEY_BYTES, LN, R, P);
      if key.None? { return Err(ScryptParameters); }
      HashVerifies(scrypt, password, password, salt);
      HashedIsCurrent(key.value, salt);
      return Ok(Hashed(key.value, salt));
    }

    /** Made on the first call, the same ever after, and always with current parameters. */
    method GetDummyHash(random: Random) returns (hash: string)
      requires Valid() && Drawn(random)
      modifies this
      ensures Valid() && dummyHash == Some(hash) && Current(hash)
      ensures old(dummyHash).Some? ==> dummyHash == old(dummyHash)
    {
      if dummyHash.Some? { return dummyHash.value; }
      DummyPasswordInRange(random);
      var r := Hash(Encode(random.password), random.salt);
      HashedIsCurrent(scrypt(Encode(random.password), random.salt, KEY_BYTES, LN, R, P).value, random.salt);
      hash := r.value;
      dummyHash := Some(hash);
    }

    /** An unusable text is checked against the dummy hash instead, which is usable: the recursion has one level. */
    method Verify(password: string, encoded: Option<string>, random: Random) returns (r: Result<bool, Rejected>)
      requires Valid() && Drawn(random)
      modifies this
      ensures Valid() && r == Verdict(scrypt, password, encoded)
      ensures old(dummyHash).Some? || Usable(encoded) || !InRange(password) ==> dummyHash == old(dummyHash)
      decreases if Usable(encoded) then 0 else 1
    {
      if !InRange(password) { return Ok(false); }
      var parsed := if encoded.Some? && encoded.value != "" then Parse(encoded.value) else None;
      EmptyDoesNotParse();
      if parsed.None? || parsed.value.ln < 14 || parsed.value.ln > 20 {
        var dummy := GetDummyHash(random);
        var _ := Verify(password, Some(dummy), random);
        return Ok(false);
      }
      var key :=
          scrypt(password, parsed.value.salt, |parsed.value.hash|, parsed.value.ln, parsed.value.r, parsed.value.p);
      if key.None? { return Err(ScryptParameters); }
      return Ok(|key.value| == |parsed.value.hash| && key.value == parsed.value.hash);
    }
  }
}
