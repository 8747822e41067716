/** Password verification against the users table, with the durable lock of an account. */
module Credentials {
  import opened Wrappers
  import opened Base64Url
  import opened PasswordHash

  datatype IdentityType = ITS | NON_ITS

  datatype Status = ACTIVE | LOCKED | DISABLED

  /** A row of users; lockedUntil in milliseconds. */
  datatype UserRow = UserRow(identityType: IdentityType, username: string, name: Option<string>,
                             passwordHash: Option<string>, status: Status,
                             failedCount: nat, lockedUntil: Option<int>)

  /** The table by its primary key, and its unique index on the names of NON_ITS users. */
  datatype Table = Table(rows: map<string, UserRow>, usernames: map<string, string>)

  datatype User = User(itsId: string, identityType: IdentityType, username: string, displayName: Option<string>)

  /** Failed: the hasher threw. */
  datatype Outcome =
    | Verified(user: User)
    | InvalidCredentials
    | TooManyAttempts(retryAfter: int)
    | AccountUnavailable
    | Failed(why: Rejected)

  datatype Config = Config(maxFailures: nat, lockSeconds: nat, scrypt: Scrypt)

  ghost predicate Configured(c: Config) {
    0 < c.maxFailures && 0 < c.lockSeconds && Honest(c.scrypt)
  }

  function LockLength(c: Config): nat {
    c.lockSeconds * 1000
  }

  /** The SELECT by primary key or by unique name; the identifier is already normalised. */
  function Find(t: Table, idType: IdentityType, identifier: string): Option<string> {
    match idType
    case ITS => if identifier in t.rows && t.rows[identifier].identityType == ITS then Some(identifier) else None
    case NON_ITS =>
      if identifier in t.usernames && t.usernames[identifier] in t.rows
         && t.rows[t.usernames[identifier]].identityType == NON_ITS then Some(t.usernames[identifier])
      else None
  }

  function ToUser(id: string, row: UserRow): User {
    User(id, row.identityType, row.username, row.name)
  }

  function Ceiling(ms: int): int {
    -(-ms / 1000)
  }

  predicate HasHash(row: UserRow) {
    row.passwordHash.Some? && row.passwordHash.value != ""
  }

  predicate IsLocked(row: UserRow, now: int) {
    row.lockedUntil.Some? && now < row.lockedUntil.value
  }

  function AfterFailure(c: Config, row: UserRow, now: int): UserRow {
    row.(failedCount := row.failedCount + 1,
         lockedUntil := if c.maxFailures <= row.failedCount + 1 then Some(now + LockLength(c)) else row.lockedUntil)
  }

  /** salt is what the hasher draws if the stored hash is replaced by one with current parameters. */
  function AfterSuccess(c: Config, row: UserRow, password: string, salt: seq<Byte>): UserRow
    requires HasHash(row)
  {
    var reset := row.(failedCount := 0, lockedUntil := None);
    var key := c.scrypt(password, salt, KEY_BYTES, LN, R, P);
    if NeedsRehash(row.passwordHash.value) && key.Some? then reset.(passwordHash := Some(Hashed(key.value, salt)))
    else reset
  }

  function VerifyRow(c: Config, id: string, row: UserRow, password: string, now: int, salt: seq<Byte>)
    : (UserRow, Outcome)
  {
    if !HasHash(row) then (row, InvalidCredentials)
    else
      match Verdict(c.scrypt, password, row.passwordHash)
      case Err(why) => (row, Failed(why))
      case Ok(valid) =>
        if IsLocked(row, now) then (row, TooManyAttempts(Ceiling(row.lockedUntil.value - now)))
        else if !valid then (AfterFailure(c, row, now), InvalidCredentials)
        else if row.status != ACTIVE then (row, AccountUnavailable)
        else (AfterSuccess(c, row, password, salt), Verified(ToUser(id, row)))
  }

  datatype Attempt = Attempt(idType: IdentityType, identifier: string, password: string, now: int, salt: seq<Byte>)

  function VerifyIn(c: Config, t: Table, a: Attempt): (Table, Outcome) {
    match Find(t, a.idType, a.identifier)
    case None => (t, InvalidCredentials)
    case Some(id) =>
      var (row, outcome) := VerifyRow(c, id, t.rows[id], a.password, a.now, a.salt);
      (t.(rows := t.rows[id := row]), outcome)
  }

  // ---- who signs in ----

  /** What the source asks for before it lets an account in: a stored hash, no lock, the right password, and ACTIVE. */
  predicate MaySignIn(c: Config, row: UserRow, password: string, now: int) {
    && row.passwordHash.Some? && row.passwordHash.value != ""
    && (row.lockedUntil.Some? ==> row.lockedUntil.value <= now)
    && Verdict(c.scrypt, password, row.passwordHash) == Ok(true)
  }

  /** Every answer exactly. A row that is not ACTIVE is refused, unchanged, after the right password; a wrong password
      on an unlocked account is counted whatever its status; and an account without a hash, a lock and a failing hasher
      change nothing. */
  lemma Answers(c: Config, id: string, row: UserRow, password: string, now: int, salt: seq<Byte>)
    ensures var o := VerifyRow(c, id, row, password, now, salt).1;
            && (o.Verified? <==> MaySignIn(c, row, password, now) && row.status == ACTIVE)
            && (o == AccountUnavailable <==> MaySignIn(c, row, password, now) && row.status != ACTIVE)
            && (o.Verified? ==> o.user == User(id, row.identityType, row.username, row.name))
    ensures var (kept, o) := VerifyRow(c, id, row, password, now, salt);
            o == InvalidCredentials <==>
              || row.passwordHash == None || row.passwordHash == Some("")
              || (Verdict(c.scrypt, password, row.passwordHash) == Ok(false) && !IsLocked(row, now))
    ensures var (kept, o) := VerifyRow(c, id, row, password, now, salt);
            && (o.TooManyAttempts? || o == AccountUnavailable || o.Failed? ==> kept == row)
            && (o == InvalidCredentials ==>
                 kept.failedCount == row.failedCount + if HasHash(row) then 1 else 0)
            && kept.status == row.status && kept.identityType == row.identityType
            && kept.username == row.username && kept.name == row.name
  {
  }

  /** The account an attempt is about: an ITS account by its id, any other by its unique name; neither kind can be
      reached as the other. */
  predicate Names(t: Table, a: Attempt, id: string) {
    && id in t.rows && t.rows[id].identityType == a.idType
    && match a.idType
       case ITS => id == a.identifier
       case NON_ITS => a.identifier in t.usernames && t.usernames[a.identifier] == id
  }

  lemma NamesOne(t: Table, a: Attempt, id: string)
    ensures Find(t, a.idType, a.identifier) == Some(id) <==> Names(t, a, id)
  {
  }

  /** An attempt signs exactly the account in that it names, if that account may sign in; no other row changes. */
  lemma SignsInExactlyWhen(c: Config, t: Table, a: Attempt, user: User)
    ensures var (u, o) := VerifyIn(c, t, a);
            o == Verified(user) <==>
              && Names(t, a, user.itsId)
              && var row := t.rows[user.itsId];
                 && MaySignIn(c, row, a.password, a.now) && row.status == ACTIVE
                 && user == User(user.itsId, row.identityType, row.username, row.name)
    ensures var (u, o) := VerifyIn(c, t, a);
            && u.usernames == t.usernames && u.rows.Keys == t.rows.Keys
            && forall id :: id in t.rows && !Names(t, a, id) ==> u.rows[id] == t.rows[id]
    ensures (forall id :: !Names(t, a, id)) ==> VerifyIn(c, t, a) == (t, InvalidCredentials)
  {
    var found := Find(t, a.idType, a.identifier);
    NamesOne(t, a, user.itsId);
    if found.Some? {
      NamesOne(t, a, found.value);
      Answers(c, found.value, t.rows[found.value], a.password, a.now, a.salt);
    }
  }

  lemma SignsInWhen(c: Config, t: Table, a: Attempt)
    ensures VerifyIn(c, t, a).1.Verified? <==>
              exists id :: Names(t, a, id) && t.rows[id].status == ACTIVE && MaySignIn(c, t.rows[id], a.password, a.now)
  {
    var o := VerifyIn(c, t, a).1;
    if o.Verified? { SignsInExactlyWhen(c, t, a, o.user); }
    forall id | Names(t, a, id) && t.rows[id].status == ACTIVE && MaySignIn(c, t.rows[id], a.password, a.now)
      ensures o.Verified?
    {
      SignsInExactlyWhen(c, t, a, ToUser(id, t.rows[id]));
    }
  }

  class CredentialService {
    const maxFailures: nat
    const lockSeconds: nat
    const hasher: PasswordHasher
    var rows: map<string, UserRow>
    const usernames: map<string, string>

    constructor (maxFailures: nat, lockSeconds: nat, hasher: PasswordHasher, rows: map<string, UserRow>,
        usernames: map<string, string>)
      ensures View() == Table(rows, usernames) && Cfg() == Config(maxFailures, lockSeconds, hasher.scrypt)
      ensures this.hasher == hasher
    {
      this.maxFailures, this.lockSeconds, this.hasher := maxFailures, lockSeconds, hasher;
      this.rows, this.usernames := rows, usernames;
    }

    ghost function View(): Table
      reads this
    {
      Table(rows, usernames)
    }

    ghost function Cfg(): Config {
      Config(maxFailures, lockSeconds, hasher.scrypt)
    }

    method RecordFailure(id: string, now: int)
      requires id in rows
      modifies this
      ensures rows == old(rows)[id := AfterFailure(Cfg(), old(rows)[id], now)]
    {
      var row := rows[id];
      rows := rows[id := row.(failedCount := row.failedCount + 1,
                              lockedUntil := if row.failedCount + 1 >= maxFailures
                                             then Some(now + lockSeconds * 1000) else row.lockedUntil)];
    }

    method RecordSuccess(id: string, password: string, salt: seq<Byte>)
      requires id in rows && HasHash(rows[id]) && Honest(hasher.scrypt) && InRange(password) && |salt| == SALT_BYTES
      modifies this
      ensures rows == old(rows)[id := AfterSuccess(Cfg(), old(rows)[id], password, salt)]
    {
      var hash := rows[id].passwordHash.value;
      rows := rows[id := rows[id].(failedCount := 0, lockedUntil := None)];
      if NeedsRehash(hash) {
        var upgraded := hasher.Hash(password, salt);
        rows := rows[id := rows[id].(passwordHash := Some(upgraded.value))];
      }
    }

    /** The check against the dummy hash that equalises the time of an account without a password. */
    method SpendTime(password: string, random: Random) returns (checked: Result<bool, Rejected>)
      requires hasher.Valid() && Drawn(random)
      modifies hasher
      ensures hasher.Valid() && checked.Ok? && (checked.value ==> InRange(password))
      ensures hasher.dummyHash.Some? && checked == Verdict(hasher.scrypt, password, hasher.dummyHash)
    {
      var dummy := hasher.GetDummyHash(random);
      checked := hasher.Verify(password, Some(dummy), random);
    }

    method VerifyFound(id: string, a: Attempt, random: Random) returns (outcome: Outcome)
      requires id in rows && HasHash(rows[id]) && hasher.Valid() && Drawn(random) && |a.salt| == SALT_BYTES
      modifies this, hasher
      ensures hasher.Valid()
      ensures var (row, o) := VerifyRow(Cfg(), id, old(rows)[id], a.password, a.now, a.salt);
              rows == old(rows)[id := row] && outcome == o
      ensures outcome.Verified? <==>
          MaySignIn(Cfg(), old(rows)[id], a.password, a.now) && old(rows)[id].status == ACTIVE
      ensures outcome == AccountUnavailable ==> old(rows)[id].status != ACTIVE && rows == old(rows)
    {
      Answers(Cfg(), id, rows[id], a.password, a.now, a.salt);
      var row := rows[id];
      assert rows[id := row] == rows;
      if row.lockedUntil.Some? && row.lockedUntil.value > a.now {
        var retryAfter := Ceiling(row.lockedUntil.value - a.now);
        var locked := hasher.Verify(a.password, row.passwordHash, random);
        return if locked.Err? then Failed(locked.error) else TooManyAttempts(retryAfter);
      }
      var valid := hasher.Verify(a.password, row.passwordHash, random);
      if valid.Err? { return Failed(valid.error); }
      if !valid.value {
        RecordFailure(id, a.now);
        return InvalidCredentials;
      }
      if row.status != ACTIVE { return AccountUnavailable; }
      RecordSuccess(id, a.password, a.salt);
      return Verified(ToUser(id, row));
    }

    /** One verify at one clock reading; the database and the service read the same clock. */
    method Verify(a: Attempt, random: Random) returns (outcome: Outcome)
      requires hasher.Valid() && Drawn(random) && |a.salt| == SALT_BYTES
      modifies this, hasher
      ensures hasher.Valid()
      ensures (View(), outcome) == VerifyIn(Cfg(), old(View()), a)
      ensures outcome.Verified? <==>
                exists id :: Names(old(View()), a, id) && old(rows)[id].status == ACTIVE
                             && MaySignIn(Cfg(), old(rows)[id], a.password, a.now)
    {
      SignsInWhen(Cfg(), View(), a);
      var found := Find(Table(rows, usernames), a.idType, a.identifier);
      if found.None? || !HasHash(rows[found.value]) {
        var _ := SpendTime(a.password, random);
        assert found.Some? ==> rows[found.value := rows[found.value]] == rows;
        return InvalidCredentials;
      }
      outcome := VerifyFound(found.value, a, random);
    }
  }

  // ---- what one attempt reveals and keeps ----

  /** The status of an account never shows before its password: without the right one, every status gives the same
      answer. */
  lemma StatusHidden(c: Config, id: string, row: UserRow, other: Status, password: string, now: int, salt: seq<Byte>)
    requires Verdict(c.scrypt, password, row.passwordHash) != Ok(true)
    ensures VerifyRow(c, id, row, password, now, salt).1
        == VerifyRow(c, id, row.(status := other), password, now, salt).1
    ensures VerifyRow(c, id, row, password, now, salt).1 != AccountUnavailable
  {
  }

  /** While an account is locked the answer does not depend on the password and nothing is counted. The wait announced
      is the shortest number of whole seconds after which the lock has lapsed. */
  lemma LockedAnswers(c: Config, id: string, row: UserRow, password: string, now: int, salt: seq<Byte>)
    requires HasHash(row) && IsLocked(row, now) && Verdict(c.scrypt, password, row.passwordHash).Ok?
    ensures VerifyRow(c, id, row, password, now, salt).0 == row
    ensures var r := VerifyRow(c, id, row, password, now, salt).1;
            && r.TooManyAttempts? && 0 < r.retryAfter
            && !IsLocked(row, now + r.retryAfter * 1000) && IsLocked(row, now + (r.retryAfter - 1) * 1000)
  {
  }

  lemma UpgradedHash(c: Config, row: UserRow, password: string, salt: seq<Byte>)
    requires Honest(c.scrypt) && |salt| == SALT_BYTES && HasHash(row)
    requires Verdict(c.scrypt, password, row.passwordHash) == Ok(true)
    ensures var kept := AfterSuccess(c, row, password, salt);
            && HasHash(kept) && !NeedsRehash(kept.passwordHash.value)
            && Verdict(c.scrypt, password, kept.passwordHash) == Ok(true)
            && kept == row.(failedCount := 0, lockedUntil := None, passwordHash := kept.passwordHash)
  {
    if NeedsRehash(row.passwordHash.value) {
      var key := c.scrypt(password, salt, KEY_BYTES, LN, R, P);
      assert key.Some?;
      HashedIsCurrent(key.value, salt);
      HashVerifies(c.scrypt, password, password, salt);
      EmptyDoesNotParse();
    }
  }

  /** A sign-in may replace the stored hash. Whatever it leaves, the same password signs in again at any time, and the
      hash is not replaced a second time. */
  lemma SignInKeepsWorking(c: Config, id: string, row: UserRow, password: string, now: int, salt: seq<Byte>, later: int,
      salt2: seq<Byte>)
    requires Honest(c.scrypt) && |salt| == SALT_BYTES
    requires VerifyRow(c, id, row, password, now, salt).1.Verified?
    ensures var (kept, outcome) := VerifyRow(c, id, row, password, now, salt);
            && HasHash(kept) && !NeedsRehash(kept.passwordHash.value)
            && kept.failedCount == 0 && kept.lockedUntil == None
            && VerifyRow(c, id, kept, password, later, salt2) == (kept, outcome)
  {
    UpgradedHash(c, row, password, salt);
  }

  // ---- the lock over whole runs ----

  function Run(c: Config, t: Table, attempts: seq<Attempt>): Table {
    if attempts == [] then t else VerifyIn(c, Run(c, t, attempts[..|attempts| - 1]), attempts[|attempts| - 1]).0
  }

  lemma AttemptKeepsStatus(c: Config, t: Table, a: Attempt, id: string)
    requires id in t.rows
    ensures var u := VerifyIn(c, t, a).0; id in u.rows && u.rows[id].status == t.rows[id].status
  {
    var found := Find(t, a.idType, a.identifier);
    if found.Some? {
      NamesOne(t, a, found.value);
      Answers(c, found.value, t.rows[found.value], a.password, a.now, a.salt);
    }
  }

  lemma {:induction false} RunKeepsStatus(c: Config, t: Table, attempts: seq<Attempt>, id: string)
    requires id in t.rows
    ensures var u := Run(c, t, attempts); id in u.rows && u.rows[id].status == t.rows[id].status
  {
    hide VerifyIn;
    if attempts != [] {
      var before := attempts[..|attempts| - 1];
      RunKeepsStatus(c, t, before, id);
      AttemptKeepsStatus(c, Run(c, t, before), attempts[|attempts| - 1], id);
    }
  }

  /** An account that is not ACTIVE never signs in, whatever is attempted before. */
  lemma OnlyActiveSignIn(c: Config, t: Table, attempts: seq<Attempt>, a: Attempt, id: string)
    requires id in t.rows && t.rows[id].status != ACTIVE
    ensures var o := VerifyIn(c, Run(c, t, attempts), a).1; o.Verified? ==> o.user.itsId != id
  {
    RunKeepsStatus(c, t, attempts, id);
    var u := Run(c, t, attempts);
    var o := VerifyIn(c, u, a).1;
    if o.Verified? { SignsInExactlyWhen(c, u, a, o.user); }
  }

  /** A wrong password was compared and counted against the account. */
  predicate Counts(c: Config, t: Table, a: Attempt, id: string) {
    && Find(t, a.idType, a.identifier) == Some(id)
    && HasHash(t.rows[id]) && !IsLocked(t.rows[id], a.now)
    && Verdict(c.scrypt, a.password, t.rows[id].passwordHash) == Ok(false)
  }

  /** When the account's counted comparisons happened. */
  function CountedTimes(c: Config, t: Table, attempts: seq<Attempt>, id: string): seq<int> {
    if attempts == [] then [] else
    var before, a := attempts[..|attempts| - 1], attempts[|attempts| - 1];
    CountedTimes(c, t, before, id) + if Counts(c, Run(c, t, before), a, id) then [a.now] else []
  }

  predicate Succeeds(c: Config, t: Table, a: Attempt, id: string) {
    Find(t, a.idType, a.identifier) == Some(id) && VerifyIn(c, t, a).1.Verified?
  }

  /** No attempt on the account succeeds. */
  predicate NoSuccess(c: Config, t: Table, attempts: seq<Attempt>, id: string) {
    attempts != [] ==>
      && NoSuccess(c, t, attempts[..|attempts| - 1], id)
      && !Succeeds(c, Run(c, t, attempts[..|attempts| - 1]), attempts[|attempts| - 1], id)
  }

  predicate InOrder(attempts: seq<Attempt>) {
    forall i, j :: 0 <= i < j < |attempts| ==> attempts[i].now <= attempts[j].now
  }

  /** Where the row stands after its comparisons at times: every one is in the count, lapsed locks included, and from
      the limit on the lock runs from the last one. */
  predicate Stands(c: Config, was: UserRow, row: UserRow, times: seq<int>) {
    && row.failedCount == was.failedCount + |times|
    && (times != [] && c.maxFailures <= row.failedCount ==> row.lockedUntil == Some(times[|times| - 1] + LockLength(c)))
  }

  lemma AttemptKeepsStanding(c: Config, t: Table, a: Attempt, id: string, was: UserRow, times: seq<int>)
    requires id in t.rows && Stands(c, was, t.rows[id], times) && !Succeeds(c, t, a, id)
    ensures var u := VerifyIn(c, t, a).0;
            id in u.rows && Stands(c, was, u.rows[id], times + if Counts(c, t, a, id) then [a.now] else [])
  {
  }

  predicate Spaced(c: Config, count: nat, times: seq<int>) {
    && (forall j :: 0 < j < |times| ==> times[j - 1] <= times[j])
    && (forall j :: 0 < j < |times| && c.maxFailures <= count + j ==> times[j - 1] + LockLength(c) <= times[j])
  }

  lemma NextIsSpaced(c: Config, was: UserRow, row: UserRow, times: seq<int>, now: int)
    requires Stands(c, was, row, times) && Spaced(c, was.failedCount, times) && !IsLocked(row, now)
    requires times != [] ==> times[|times| - 1] <= now
    ensures Spaced(c, was.failedCount, times + [now])
  {
  }

  lemma NextStands(c: Config, t: Table, a: Attempt, id: string, was: UserRow, times: seq<int>)
    requires id in t.rows && Stands(c, was, t.rows[id], times) && Spaced(c, was.failedCount, times)
    requires !Succeeds(c, t, a, id) && (times != [] ==> times[|times| - 1] <= a.now)
    ensures var u, now := VerifyIn(c, t, a).0, times + if Counts(c, t, a, id) then [a.now] else [];
            && id in u.rows && Stands(c, was, u.rows[id], now) && Spaced(c, was.failedCount, now)
            && (now != [] ==> now[|now| - 1] <= a.now)
  {
    hide Stands, Spaced, VerifyIn;
    AttemptKeepsStanding(c, t, a, id, was, times);
    if Counts(c, t, a, id) { NextIsSpaced(c, was, t.rows[id], times, a.now); } else { assert times + [] == times; }
  }

  lemma NothingStands(c: Config, row: UserRow)
    ensures Stands(c, row, row, []) && Spaced(c, row.failedCount, [])
  {
  }

  lemma {:induction false} RunStands(c: Config, t: Table, attempts: seq<Attempt>, id: string)
    requires id in t.rows && InOrder(attempts) && NoSuccess(c, t, attempts, id)
    ensures var times := CountedTimes(c, t, attempts, id);
            && id in Run(c, t, attempts).rows
            && Stands(c, t.rows[id], Run(c, t, attempts).rows[id], times)
            && Spaced(c, t.rows[id].failedCount, times)
            && (times != [] ==> attempts != [] && times[|times| - 1] <= attempts[|attempts| - 1].now)
  {
    hide Stands, Spaced, VerifyIn, Counts;
    NothingStands(c, t.rows[id]);
    if attempts != [] {
      var before, a := attempts[..|attempts| - 1], attempts[|attempts| - 1];
      RunStands(c, t, before, id);
      var s, times := Run(c, t, before), CountedTimes(c, t, before, id);
      assert Run(c, t, attempts) == VerifyIn(c, s, a).0;
      assert before != [] ==> before[|before| - 1] == attempts[|before| - 1] && attempts[|before| - 1].now <= a.now;
      NextStands(c, s, a, id, t.rows[id], times);
    }
  }

  lemma {:induction false} SpacedApart(c: Config, count: nat, times: seq<int>, j: nat, k: nat)
    requires Spaced(c, count, times) && j <= k < |times|
    ensures times[j] <= times[k]
    ensures c.maxFailures <= count + j + 1 ==> times[j] + (k - j) * LockLength(c) <= times[k]
    decreases k - j
  {
    if j < k {
      SpacedApart(c, count, times, j, k - 1);
      assert times[k - 1] <= times[k];
      assert (k - j) * LockLength(c) == (k - 1 - j) * LockLength(c) + LockLength(c);
    }
  }

  /** The lock slows guessing down. Without a success the failures are all counted, lapsed locks included; and from the
      comparison that reaches the limit on, each takes at least one more lock length. */
  lemma LockSpacesGuesses(c: Config, t: Table, attempts: seq<Attempt>, id: string, j: nat, k: nat)
    requires id in t.rows && InOrder(attempts) && NoSuccess(c, t, attempts, id)
    requires j <= k < |CountedTimes(c, t, attempts, id)| && c.maxFailures <= t.rows[id].failedCount + j + 1
    ensures var times := CountedTimes(c, t, attempts, id); times[j] + (k - j) * LockLength(c) <= times[k]
    ensures id in Run(c, t, attempts).rows
    ensures Run(c, t, attempts).rows[id].failedCount == t.rows[id].failedCount + |CountedTimes(c, t, attempts, id)|
  {
    RunStands(c, t, attempts, id);
    SpacedApart(c, t.rows[id].failedCount, CountedTimes(c, t, attempts, id), j, k);
  }

  lemma Times(a: int, b: int, length: nat)
    ensures a <= b ==> a * length <= b * length
  {
  }

  lemma QuotientAtLeast(n: int, d: int, length: nat)
    requires 0 < length && n * length <= d
    ensures n <= d / length
  {
    Times(d / length + 1, n, length);
  }

  lemma SpacedCount(c: Config, count: nat, times: seq<int>, i: nat, m: nat)
    requires Spaced(c, count, times) && i <= m < |times| && 0 < LockLength(c) && 0 < c.maxFailures
    ensures m - i + 1 <= c.maxFailures + (times[m] - times[i]) / LockLength(c)
  {
    var first := if c.maxFailures <= count + i + 1 then i else c.maxFailures - 1 - count;
    SpacedApart(c, count, times, i, m);
    if first <= m {
      SpacedApart(c, count, times, i, first);
      SpacedApart(c, count, times, first, m);
      QuotientAtLeast(m - first, times[m] - times[i], LockLength(c));
    } else {
      QuotientAtLeast(0, times[m] - times[i], LockLength(c));
    }
  }

  /** Any stretch of counted comparisons from the i-th to the m-th has at most max + floor(T / lock) of them, T being
      the time it takes. */
  lemma LockoutBound(c: Config, t: Table, attempts: seq<Attempt>, id: string, i: nat, m: nat)
    requires Configured(c) && id in t.rows && InOrder(attempts) && NoSuccess(c, t, attempts, id)
    requires i <= m < |CountedTimes(c, t, attempts, id)|
    ensures var times := CountedTimes(c, t, attempts, id);
            m - i + 1 <= c.maxFailures + (times[m] - times[i]) / LockLength(c)
  {
    RunStands(c, t, attempts, id);
    SpacedCount(c, t.rows[id].failedCount, CountedTimes(c, t, attempts, id), i, m);
  }

  // ---- the bound is attained ----

  function GuessTime(c: Config, i: nat): int {
    if i < c.maxFailures then 0 else (i - c.maxFailures + 1) * LockLength(c)
  }

  /** One wrong password, max times at once and then once each time the lock lapses. */
  function Guesses(c: Config, id: string, password: string, n: nat): seq<Attempt> {
    if n == 0 then [] else Guesses(c, id, password, n - 1) + [Attempt(ITS, id, password, GuessTime(c, n - 1), [])]
  }

  function GuessTimes(c: Config, n: nat): seq<int> {
    if n == 0 then [] else GuessTimes(c, n - 1) + [GuessTime(c, n - 1)]
  }

  /** A fresh row after n counted guesses. */
  function Guessed(c: Config, row: UserRow, n: nat): UserRow {
    var locked := 0 < n && c.maxFailures <= n;
    row.(failedCount := n, lockedUntil := if locked then Some(GuessTime(c, n - 1) + LockLength(c)) else None)
  }

  lemma GuessCounts(c: Config, row: UserRow, n: nat)
    requires 0 < c.maxFailures
    ensures !IsLocked(Guessed(c, row, n), GuessTime(c, n))
    ensures AfterFailure(c, Guessed(c, row, n), GuessTime(c, n)) == Guessed(c, row, n + 1)
  {
    if c.maxFailures <= n {
      assert (n - c.maxFailures + 1) * LockLength(c) == (n - 1 - c.maxFailures + 1) * LockLength(c) + LockLength(c);
    }
  }

  predicate Guessable(c: Config, row: UserRow, password: string) {
    && row.identityType == ITS && HasHash(row) && row.failedCount == 0 && row.lockedUntil == None
    && Verdict(c.scrypt, password, row.passwordHash) == Ok(false)
  }

  lemma GuessStep(c: Config, u: Table, id: string, row: UserRow, password: string, n: nat)
    requires 0 < c.maxFailures && id in u.rows && Guessable(c, row, password) && u.rows[id] == Guessed(c, row, n)
    ensures var a := Attempt(ITS, id, password, GuessTime(c, n), []);
            Counts(c, u, a, id) && VerifyIn(c, u, a).0 == u.(rows := u.rows[id := Guessed(c, row, n + 1)])
  {
    GuessCounts(c, row, n);
    assert Find(u, ITS, id) == Some(id);
    assert VerifyRow(c, id, u.rows[id], password, GuessTime(c, n), []).0 == Guessed(c, row, n + 1);
  }

  lemma OneMore(c: Config, t: Table, attempts: seq<Attempt>, a: Attempt, id: string)
    ensures Run(c, t, attempts + [a]) == VerifyIn(c, Run(c, t, attempts), a).0
    ensures CountedTimes(c, t, attempts + [a], id)
            == CountedTimes(c, t, attempts, id) + if Counts(c, Run(c, t, attempts), a, id) then [a.now] else []
  {
    assert (attempts + [a])[..|attempts|] == attempts;
  }

  /** Every such guess is counted: no smaller bound holds. */
  lemma {:induction false} EveryGuessCounts(c: Config, t: Table, id: string, password: string, n: nat)
    requires 0 < c.maxFailures && id in t.rows && Guessable(c, t.rows[id], password)
    ensures CountedTimes(c, t, Guesses(c, id, password, n), id) == GuessTimes(c, n)
    ensures var u := Run(c, t, Guesses(c, id, password, n)); id in u.rows && u.rows[id] == Guessed(c, t.rows[id], n)
  {
    hide VerifyIn, VerifyRow, Counts, Verdict;
    if 0 < n {
      var before := Guesses(c, id, password, n - 1);
      EveryGuessCounts(c, t, id, password, n - 1);
      OneMore(c, t, before, Attempt(ITS, id, password, GuessTime(c, n - 1), []), id);
      GuessStep(c, Run(c, t, before), id, t.rows[id], password, n - 1);
    }
  }

  lemma {:induction false} GuessTimesAt(c: Config, n: nat, i: nat)
    requires i < n
    ensures |GuessTimes(c, n)| == n && GuessTimes(c, n)[i] == GuessTime(c, i)
  {
    if 1 < n { GuessTimesAt(c, n - 1, if i < n - 1 then i else 0); }
  }

  lemma Multiple(n: nat, length: nat)
    requires 0 < length
    ensures n * length / length == n
  {
    QuotientAtLeast(n, n * length, length);
    Times(n + 1, n * length / length, length);
  }

  lemma GuessSpan(c: Config, m: nat)
    requires 0 < LockLength(c) && 0 < c.maxFailures <= m + 1
    ensures var times := GuessTimes(c, m + 1);
            |times| == m + 1 && (times[m] - times[0]) / LockLength(c) == m + 1 - c.maxFailures
  {
    GuessTimesAt(c, m + 1, 0);
    GuessTimesAt(c, m + 1, m);
    Multiple(m + 1 - c.maxFailures, LockLength(c));
  }

  /** With them the bound is met exactly, for any limit, any lock and any number of guesses from the limit on. */
  lemma LockoutBoundIsAttained(c: Config, t: Table, id: string, password: string, m: nat)
    requires 0 < c.lockSeconds && 0 < c.maxFailures <= m + 1 && id in t.rows && Guessable(c, t.rows[id], password)
    ensures var times := CountedTimes(c, t, Guesses(c, id, password, m + 1), id);
            |times| == m + 1 && m + 1 == c.maxFailures + (times[m] - times[0]) / LockLength(c)
  {
    EveryGuessCounts(c, t, id, password, m + 1);
    GuessSpan(c, m);
  }
}
