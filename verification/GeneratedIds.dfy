/** What the services generate from random bytes fits the patterns that they later demand, and loses none of the
    bytes. */
module GeneratedIds {
  import opened Base64Url
  import F = FederationSessions
  import L = LocalSessions
  import T = Transactions
  import PasswordHash

  /** randomToken: a session handle, a csrf token, an application's local session id. */
  function Token(bytes: seq<Byte>): string {
    Encode(bytes)
  }

  /** randomId. */
  function Id(prefix: string, bytes: seq<Byte>): string {
    prefix + "_" + Encode(bytes)
  }

  /** Handles and local ids of 32 bytes are found well formed when they come back. */
  lemma TokensAreWellFormed(bytes: seq<Byte>)
    requires |bytes| == 32
    ensures F.WellFormedHandle(Token(bytes)) && L.WellFormedId(Token(bytes))
  {
    PasswordHash.EncodedLength(bytes);
  }

  /** So are transaction ids of 18 bytes, of the Core and of the applications, and states of 24 bytes. */
  lemma TransactionsAreWellFormed(bytes: seq<Byte>, state: seq<Byte>)
    requires |bytes| == 18 && |state| == 24
    ensures T.IdOk(Id("txn", bytes)) && T.StateOk(Token(state))
  {
    PasswordHash.EncodedLength(bytes);
    PasswordHash.EncodedLength(state);
    assert IsText(Encode(bytes)) && IsText(Encode(state));
    var id := Id("txn", bytes);
    forall i | 0 <= i < |id| ensures IsSymbol(id[i]) {
      if 4 <= i { assert id[i] == Encode(bytes)[i - 4]; }
    }
  }

  /** Different bytes make different tokens and ids. */
  lemma GeneratedDiffer(a: seq<Byte>, b: seq<Byte>, prefix: string)
    ensures Token(a) == Token(b) <==> a == b
    ensures Id(prefix, a) == Id(prefix, b) <==> a == b
  {
    DecodeEncode(a);
    DecodeEncode(b);
    assert Id(prefix, a)[|prefix| + 1..] == Encode(a) && Id(prefix, b)[|prefix| + 1..] == Encode(b);
  }
}
