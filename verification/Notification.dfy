/** Federation-wide logout: the delivery loop of one back-channel notification. */
module Notification {
  datatype Reply = Status(code: int) | NoReply

  datatype Outcome = SUCCEEDED | FAILED | NO_ENDPOINT

  /** What the client registry answers: an error, or the client's logout endpoint if it has a usable one. */
  datatype Target = LookupFailed | NoEndpoint | Endpoint

  const ATTEMPTS := 3

  predicate Ok(r: Reply) { r.Status? && 200 <= r.code < 300 }
  predicate Rejected(r: Reply) { r.Status? && 400 <= r.code < 500 }
  predicate Final(r: Reply) { Ok(r) || Rejected(r) }

  /** replies[k] is what the application answers to attempt k, if that attempt is made. The outcome is SUCCEEDED exactly
      when some attempt got a 2xx and every attempt before it got neither a 2xx nor a 4xx; nothing is sent after a 2xx,
      after a 4xx, or after three attempts. */
  method NotifyClient(target: Target, replies: seq<Reply>) returns (status: Outcome, sent: nat, waitedMs: nat)
    requires |replies| == ATTEMPTS
    ensures status == NO_ENDPOINT <==> target == NoEndpoint
    ensures status == SUCCEEDED <==>
              && target == Endpoint
              && exists k :: 0 <= k < ATTEMPTS && Ok(replies[k]) && forall j :: 0 <= j < k ==> !Final(replies[j])
    ensures target != Endpoint ==> sent == 0 && waitedMs == 0
    ensures target == Endpoint ==>
              1 <= sent <= ATTEMPTS && (forall j :: 0 <= j < sent - 1 ==> !Final(replies[j]))
                && (sent < ATTEMPTS ==> Final(replies[sent - 1]))
    ensures waitedMs == if sent <= 1 then 0 else if sent == 2 then 500 else 1500
  {
    status, sent, waitedMs := FAILED, 0, 0;
    if target == LookupFailed { return; }
    if target == NoEndpoint { status := NO_ENDPOINT; return; }
    var backoff := 500;
    for attempt := 1 to ATTEMPTS + 1
      invariant status == FAILED && sent == attempt - 1
      invariant forall j :: 0 <= j < sent ==> !Final(replies[j])
      invariant attempt == 1 ==> waitedMs == 0 && backoff == 500
      invariant attempt == 2 ==> waitedMs == 500 && backoff == 1000
      invariant attempt >= 3 ==> waitedMs == 1500
    {
      sent := attempt;
      var res := replies[attempt - 1];
      if Ok(res) { status := SUCCEEDED; break; }
      if Rejected(res) { break; }
      if attempt < ATTEMPTS { waitedMs := waitedMs + backoff; backoff := backoff * 2; }
    }
  }
}
