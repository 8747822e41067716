/** Login transactions: one Redis record per transaction id, created with SET NX, completed and bound by Lua scripts. */
module Transactions {
  import opened Wrappers
  import opened Redis

  datatype Display = Embed | Page | Portal

  datatype Status = PENDING | COMPLETED

  /** csrf is a fresh random token per created record, so it names the stored instance. */
  datatype Txn = Txn(id: string, clientId: Option<string>, state: Option<string>, display: Display,
                     embedOrigin: Option<string>, callbackUri: Option<string>, csrf: string,
                     sid: Option<string>, status: Status)

  datatype Input = Input(id: string, clientId: Option<string>, state: Option<string>, display: Display,
                         embedOrigin: Option<string>, callbackUri: Option<string>)

  datatype Error = InvalidRequest | TransactionInvalid | TransactionUsed | TransactionConflict

  type Txns = Store<string, Txn>

  /** TRANSACTION_ID_PATTERN */
  predicate IdOk(id: string) {
    6 <= |id| <= 128 &&
    forall i :: 0 <= i < |id| ==>
      var c := id[i];
      'A' <= c <= 'Z' || 'a' <= c <= 'z' || '0' <= c <= '9' || c == '.' || c == '_' || c == '~' || c == '-'
  }

  /** STATE_PATTERN: visible ASCII. */
  predicate StateOk(s: string) {
    8 <= |s| <= 512 && forall i :: 0 <= i < |s| ==> '!' <= s[i] <= '~'
  }

  predicate InputOk(x: Input) {
    IdOk(x.id) && (x.display != Portal ==> x.state.Some? && StateOk(x.state.value))
  }

  function NewTxn(x: Input, csrf: string): Txn {
    Txn(x.id, x.clientId, x.state, x.display, x.embedOrigin, x.callbackUri, csrf, None, PENDING)
  }

  predicate SameRequest(t: Txn, x: Input) {
    t.clientId == x.clientId && t.state == x.state && t.display == x.display &&
    t.embedOrigin == x.embedOrigin && t.callbackUri == x.callbackUri
  }

  /** SET NX EX */
  function SetNx(m: Txns, x: Input, csrf: string, now: int, ttl: int): Txns {
    if Live(m, x.id, now) then m else SetEx(m, x.id, NewTxn(x, csrf), now, ttl)
  }

  function Create(m: Txns, x: Input, csrf: string, now: int, ttl: int): (Txns, Result<Txn, Error>) {
    if !InputOk(x) then (m, Err(InvalidRequest))
    else if !Live(m, x.id, now) then (SetNx(m, x, csrf, now, ttl), Ok(NewTxn(x, csrf)))
    else if !SameRequest(m[x.id].value, x) then (m, Err(TransactionConflict))
    else if m[x.id].value.status == PENDING then (m, Ok(m[x.id].value))
    else (m, Err(TransactionUsed))
  }

  /** requirePending: the record, if it is live, pending and belongs to the client. */
  function Pending(m: Txns, id: string, clientId: Option<string>, now: int): Result<Txn, Error> {
    if !IdOk(id) || !Live(m, id, now) then Err(TransactionInvalid)
    else if m[id].value.status != PENDING then Err(TransactionUsed)
    else if m[id].value.clientId != clientId then Err(TransactionInvalid)
    else Ok(m[id].value)
  }

  /** COMPLETE_SCRIPT: PENDING to COMPLETED, keeping the deadline. */
  function Complete(m: Txns, id: string, now: int): (Txns, Result<Txn, Error>) {
    if !Live(m, id, now) then (m, Err(TransactionInvalid))
    else if m[id].value.status != PENDING then (m, Err(TransactionUsed))
    else
      var done := m[id].value.(status := COMPLETED);
      (m[id := Entry(done, m[id].deadline)], Ok(done))
  }

  /** BIND_SESSION_SCRIPT and the ttl check before it: true when the record is now bound to sid. */
  function Bind(m: Txns, id: string, sid: string, absolute: int, overwrite: bool, now: int): (Txns, bool) {
    var ttl := (absolute - now) / 1000;
    if ttl <= 0 || !Live(m, id, now) then (m, false)
    else if !overwrite && m[id].value.sid.Some? && m[id].value.sid != Some(sid) then (m, false)
    else (SetEx(m, id, m[id].value.(sid := Some(sid)), now, ttl), true)
  }

  // ---- what create answers ----

  /** The record is one that this very request would have created. */
  predicate AskedBy(t: Txn, x: Input) {
    t.(id := x.id, sid := None, status := PENDING) == NewTxn(x, t.csrf)
  }

  /** A malformed request is refused. Over an absent key a fresh PENDING record of the request is stored. Over a live
      key nothing changes: the record is resumed if it is PENDING and of this very request, used if it is completed and
      of this request, and a conflict if any one of the five parameters differs. */
  lemma CreateAnswers(m: Txns, x: Input, csrf: string, now: int, ttl: int)
    ensures var (n, r) := Create(m, x, csrf, now, ttl);
            && (r == Err(InvalidRequest) <==>
                 !IdOk(x.id) || (x.display != Portal && !(x.state.Some? && StateOk(x.state.value))))
            && (r == Err(InvalidRequest) ==> n == m)
    ensures var (n, r) := Create(m, x, csrf, now, ttl);
            r != Err(InvalidRequest) && !(x.id in m && now < m[x.id].deadline) ==>
              && r == Ok(Txn(x.id, x.clientId, x.state, x.display, x.embedOrigin, x.callbackUri, csrf, None, PENDING))
              && n == m[x.id := Entry(r.value, now + ttl * 1000)]
    ensures var (n, r) := Create(m, x, csrf, now, ttl);
            r != Err(InvalidRequest) && x.id in m && now < m[x.id].deadline ==>
              var t := m[x.id].value;
              && n == m
              && (r == Ok(t) <==> AskedBy(t, x) && t.status == PENDING)
              && (r == Err(TransactionUsed) <==> AskedBy(t, x) && t.status == COMPLETED)
              && (r == Err(TransactionConflict) <==> !AskedBy(t, x))
  {
  }

  /** Whoever gets a record gets one of its own; repeating the request while the record lives resumes that record and
      leaves the store alone, until complete, and then it is used. */
  lemma CreateResumes(m: Txns, x: Input, csrf: string, now: int, ttl: int, again: string, later: int)
    requires var (n, r) := Create(m, x, csrf, now, ttl); r.Ok? && x.id in n && later < n[x.id].deadline
    ensures var (n, r) := Create(m, x, csrf, now, ttl);
            && AskedBy(r.value, x) && r.value.status == PENDING && n[x.id].value == r.value
            && Create(n, x, again, later, ttl) == (n, r)
            && (var done := Complete(n, x.id, later).0;
                Create(done, x, again, later, ttl) == (done, Err(TransactionUsed)))
  {
    CreateAnswers(m, x, csrf, now, ttl);
    var (n, r) := Create(m, x, csrf, now, ttl);
    CreateAnswers(n, x, again, later, ttl);
    CompleteAnswers(n, x.id, later);
    CreateAnswers(Complete(n, x.id, later).0, x, again, later, ttl);
  }

  // ---- what requirePending, complete and bind answer ----

  /** A record is handed out exactly if the id is well formed and the record live, PENDING and of the client that asks;
      a completed record is used, whoever asks; everything else is invalid. */
  lemma PendingAnswers(m: Txns, id: string, clientId: Option<string>, now: int, t: Txn)
    ensures Pending(m, id, clientId, now) == Ok(t) <==>
              && IdOk(id) && id in m && now < m[id].deadline
              && m[id].value == t && t.status == PENDING && t.clientId == clientId
    ensures Pending(m, id, clientId, now) == Err(TransactionUsed) <==>
              IdOk(id) && id in m && now < m[id].deadline && m[id].value.status == COMPLETED
    ensures var r := Pending(m, id, clientId, now); r.Err? ==> r.error in {TransactionUsed, TransactionInvalid}
  {
  }

  /** complete succeeds exactly on a live PENDING record. Then only its status changes: not its deadline, not what it is
      bound to, and no other record. */
  lemma CompleteAnswers(m: Txns, id: string, now: int)
    ensures var (n, r) := Complete(m, id, now);
            && (r.Ok? <==> id in m && now < m[id].deadline && m[id].value.status == PENDING)
            && (r == Err(TransactionUsed) <==> id in m && now < m[id].deadline && m[id].value.status == COMPLETED)
            && (r.Err? ==> n == m && r.error in {TransactionUsed, TransactionInvalid})
    ensures var (n, r) := Complete(m, id, now);
            r.Ok? ==>
              && r.value.status == COMPLETED && r.value.(status := PENDING) == m[id].value
              && n.Keys == m.Keys && n[id].value == r.value && n[id].deadline == m[id].deadline
              && forall k :: k in m && k != id ==> n[k] == m[k]
  {
  }

  /** At most one complete of a record succeeds: afterwards it is used for everyone while it lives. */
  lemma CompletesOnce(m: Txns, id: string, now: int, later: int, clientId: Option<string>)
    requires Complete(m, id, now).1.Ok?
    ensures var n := Complete(m, id, now).0;
            && Complete(n, id, later) == (n, Err(if Live(m, id, later) then TransactionUsed else TransactionInvalid))
            && Pending(n, id, clientId, later).Err?
  {
  }

  /** bind succeeds exactly if the session has a full second left, the record is live, and it is unbound, bound to this
      session, or to be overwritten. Then only its session and its deadline change; otherwise nothing does. */
  lemma BindAnswers(m: Txns, id: string, sid: string, absolute: int, overwrite: bool, now: int)
    ensures var (n, ok) := Bind(m, id, sid, absolute, overwrite, now);
            && (ok <==>
                 && now + 1000 <= absolute && id in m && now < m[id].deadline
                 && (overwrite || m[id].value.sid in {None, Some(sid)}))
            && (!ok ==> n == m)
            && (ok ==> && n.Keys == m.Keys && n[id].value == m[id].value.(sid := Some(sid))
                       && forall k :: k in m && k != id ==> n[k] == m[k])
  {
  }

  /** Once bound a record stays with its session: without overwriting, another session is refused and changes nothing,
      and the same session may bind it again as long as a second is left of it. */
  lemma BoundStays(m: Txns, id: string, sid: string, absolute: int, overwrite: bool, now: int,
                   other: string, until: int, later: int)
    requires Bind(m, id, sid, absolute, overwrite, now).1
    ensures var n := Bind(m, id, sid, absolute, overwrite, now).0;
            && (other != sid ==> Bind(n, id, other, until, false, later) == (n, false))
            && (later + 1000 <= absolute ==> Bind(n, id, sid, absolute, false, later).1)
  {
  }

  /** A bound record never outlives the session it is bound to. */
  lemma BindDeadline(m: Txns, id: string, sid: string, absolute: int, overwrite: bool, now: int)
    ensures var (n, ok) := Bind(m, id, sid, absolute, overwrite, now);
            ok ==>
              && id in n && n[id].value.sid == Some(sid)
              && now < n[id].deadline <= absolute && absolute - 1000 < n[id].deadline
  {
  }

  class TransactionService {
    const ttl: int
    var txns: Txns

    constructor (ttl: int)
      ensures txns == map[] && this.ttl == ttl
    {
      this.ttl, txns := ttl, map[];
    }

    method CreateTransaction(x: Input, csrf: string, now: int) returns (r: Result<Txn, Error>)
      modifies this
      ensures (txns, r) == Create(old(txns), x, csrf, now, ttl)
      ensures r.Ok? ==> AskedBy(r.value, x) && r.value.status == PENDING
      ensures Live(old(txns), x.id, now) ==> txns == old(txns)
      ensures r == Err(TransactionConflict) ==> !AskedBy(old(txns)[x.id].value, x)
    {
      CreateAnswers(txns, x, csrf, now, ttl);
      if !IdOk(x.id) { return Err(InvalidRequest); }
      if x.display != Portal && (x.state.None? || !StateOk(x.state.value)) { return Err(InvalidRequest); }
      var txn := NewTxn(x, csrf);
      var created := !Live(txns, x.id, now);
      txns := SetNx(txns, x, csrf, now, ttl);
      if created { return Ok(txn); }
      var existing := Get(txns, x.id, now);
      var sameRequest := existing.Some? && SameRequest(existing.value, x);
      if sameRequest && existing.value.status == PENDING { return Ok(existing.value); }
      if sameRequest { return Err(TransactionUsed); }
      return Err(TransactionConflict);
    }

    method RequirePending(id: string, clientId: Option<string>, now: int) returns (r: Result<Txn, Error>)
      ensures r == Pending(txns, id, clientId, now)
      ensures r.Ok? <==>
          IdOk(id) && Live(txns, id, now) && txns[id].value.status == PENDING && txns[id].value.clientId == clientId
      ensures r.Ok? ==> r.value == txns[id].value
    {
      if !IdOk(id) { return Err(TransactionInvalid); }
      var txn := Get(txns, id, now);
      if txn.None? { return Err(TransactionInvalid); }
      if txn.value.status != PENDING { return Err(TransactionUsed); }
      if txn.value.clientId != clientId { return Err(TransactionInvalid); }
      return Ok(txn.value);
    }

    method CompleteTransaction(id: string, now: int) returns (r: Result<Txn, Error>)
      modifies this
      ensures (txns, r) == Complete(old(txns), id, now)
      ensures r.Ok? <==> Live(old(txns), id, now) && old(txns)[id].value.status == PENDING
      ensures r.Ok? ==> txns[id] == Entry(old(txns)[id].value.(status := COMPLETED), old(txns)[id].deadline)
    {
      if !Live(txns, id, now) { return Err(TransactionInvalid); }
      if txns[id].value.status != PENDING { return Err(TransactionUsed); }
      var done := txns[id].value.(status := COMPLETED);
      txns := txns[id := Entry(done, txns[id].deadline)];
      return Ok(done);
    }

    method BindToSession(id: string, sid: string, absolute: int, overwrite: bool, now: int) returns (ok: bool)
      modifies this
      ensures (txns, ok) == Bind(old(txns), id, sid, absolute, overwrite, now)
      ensures ok ==> txns[id].value.sid == Some(sid) && txns[id].deadline <= absolute
    {
      BindDeadline(txns, id, sid, absolute, overwrite, now);
      var ttl := (absolute - now) / 1000;
      if ttl <= 0 || !Live(txns, id, now) { return false; }
      var bound := txns[id].value.sid;
      if !overwrite && bound.Some? && bound.value != sid { return false; }
      txns := SetEx(txns, id, txns[id].value.(sid := Some(sid)), now, ttl);
      return true;
    }
  }
}
