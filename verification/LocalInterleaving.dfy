/** An application's local sessions under concurrency: destroyBySid lists the ids of a sid with SMEMBERS and deletes
    them, with the set, in a later DEL. Other requests run in between. */
module LocalInterleaving {
  import opened Wrappers
  import opened Redis
  import opened LocalSessions

  type Tid = nat

  /** The sid a session was created for, and the step at which it was. */
  datatype Birth = Birth(sid: string, at: nat)

  /** A destroyBySid between its two commands. */
  datatype Reader = Reader(sid: string, ids: set<LocalId>, at: nat)

  /** A completed destroyBySid: the steps of its SMEMBERS and of its DEL; the same step if there was nothing to
      delete. */
  datatype Handling = Handling(sid: string, read: nat, del: nat)

  datatype Book = Book(local: Local, born: map<LocalId, Birth>, readers: map<Tid, Reader>, completed: set<Handling>)

  const BLANK := Book(NOTHING, map[], map[], {})

  function Opened(b: Book, ttl: int, id: LocalId, s: LocalSession, now: int, step: nat): Book {
    b.(local := Create(b.local, ttl, id, s, now), born := b.born[id := Birth(s.sid, step)])
  }

  /** The MULTI of destroy, for a session read earlier: its key, and its membership in the set of its sid. */
  function Closed(b: Book, id: LocalId, now: int): Book
    requires id in b.born
  {
    b.(local := Local(Del(b.local.sessions, id), SRem(b.local.index, b.born[id].sid, id, now)))
  }

  /** The SMEMBERS of destroyBySid. */
  function Listed(b: Book, tid: Tid, sid: string, now: int, step: nat): Book {
    var ids := SMembers(b.local.index, sid, now);
    if ids == {} then b.(completed := b.completed + {Handling(sid, step, step)})
    else b.(readers := b.readers[tid := Reader(sid, ids, step)])
  }

  /** Its DEL. */
  function Deleted(b: Book, tid: Tid, step: nat): Book
    requires tid in b.readers
  {
    var r := b.readers[tid];
    b.(local := Local(b.local.sessions - r.ids, Del(b.local.index, r.sid)), readers := b.readers - {tid},
       completed := b.completed + {Handling(r.sid, r.at, step)})
  }

  // ---- what a completed handling leaves behind ----

  predicate Missed(h: Handling, born: Birth) {
    h.sid == born.sid && h.read < born.at < h.del
  }

  /** Created between the SMEMBERS and the DEL of some handling that completed before step. */
  ghost predicate OrphanedBefore(b: Book, id: LocalId, step: nat)
    requires id in b.born
  {
    exists h :: h in b.completed && Missed(h, b.born[id]) && h.del < step
  }

  ghost predicate Orphaned(b: Book, id: LocalId)
    requires id in b.born
  {
    exists h :: h in b.completed && Missed(h, b.born[id])
  }

  ghost predicate Steps(b: Book, step: nat) {
    && (forall id :: id in b.born ==> b.born[id].at <= step)
    && (forall t :: t in b.readers ==> b.readers[t].at <= step)
    && (forall h :: h in b.completed ==> h.read <= h.del <= step)
  }

  ghost predicate Known(b: Book) {
    && (forall id :: id in b.local.sessions ==> id in b.born && b.born[id].sid == b.local.sessions[id].value.sid)
    && (forall sid, id :: sid in b.local.index && id in b.local.index[sid].value ==>
         id in b.born && b.born[id].sid == sid)
    && (forall t, id :: t in b.readers && id in b.readers[t].ids ==>
         id in b.born && b.born[id] == Birth(b.readers[t].sid, b.born[id].at) && b.born[id].at < b.readers[t].at)
  }

  /** A live session is in a set that lives as long, unless some handling orphaned it; no set has an orphan. */
  ghost predicate Filed(b: Book, ttl: int, now: int, id: LocalId)
    requires id in b.local.sessions && id in b.born
  {
    var sid := b.born[id].sid;
    && b.local.sessions[id].deadline <= now + ttl * 1000
    && (Live(b.local.sessions, id, now) ==>
          Orphaned(b, id)
            || (sid in b.local.index && id in b.local.index[sid].value
            && b.local.sessions[id].deadline <= b.local.index[sid].deadline))
  }

  ghost predicate AllFiled(b: Book, ttl: int, now: int)
    requires Known(b)
  {
    && (forall id :: id in b.local.sessions ==> Filed(b, ttl, now, id))
    && (forall sid, id :: sid in b.local.index && id in b.local.index[sid].value ==> !Orphaned(b, id))
  }

  /** A reader lists exactly the sessions that were live at its SMEMBERS and that nobody had orphaned by then. */
  ghost predicate ListOk(b: Book, now: int, r: Reader)
    requires Known(b)
  {
    && (forall id ::
         id in b.local.sessions && Live(b.local.sessions, id, now) && b.born[id].sid == r.sid
         && b.born[id].at <= r.at ==>
          id in r.ids || OrphanedBefore(b, id, r.at))
    && (forall id :: id in r.ids && id in b.born ==> !OrphanedBefore(b, id, r.at))
  }

  /** What survives a handling was created after its SMEMBERS or orphaned before it. */
  ghost predicate SweptBy(b: Book, now: int, h: Handling)
    requires Known(b)
  {
    forall id :: id in b.local.sessions && Live(b.local.sessions, id, now) && b.born[id].sid == h.sid ==>
      h.read < b.born[id].at || OrphanedBefore(b, id, h.read)
  }

  ghost predicate Inv(b: Book, ttl: int, now: int, step: nat) {
    && Steps(b, step) && Known(b) && AllFiled(b, ttl, now)
    && (forall t :: t in b.readers ==> ListOk(b, now, b.readers[t]))
    && (forall h :: h in b.completed ==> SweptBy(b, now, h))
  }

  // ---- each event keeps it ----

  lemma LaterKeepsInv(b: Book, ttl: int, now: int, later: int, step: nat, next: nat)
    requires Inv(b, ttl, now, step) && now <= later && step <= next
    ensures Inv(b, ttl, later, next)
  {
    forall id | id in b.local.sessions ensures Filed(b, ttl, later, id) { assert Filed(b, ttl, now, id); }
    forall t | t in b.readers ensures ListOk(b, later, b.readers[t]) { assert ListOk(b, now, b.readers[t]); }
    forall h | h in b.completed ensures SweptBy(b, later, h) { assert SweptBy(b, now, h); }
  }

  /** c came from b at this step: births and handlings are only added, the new ones at this step or later. */
  ghost predicate Extends(b: Book, c: Book, step: nat) {
    && (forall x :: x in b.born ==> x in c.born && c.born[x] == b.born[x])
    && (forall x :: x in c.born && x !in b.born ==> step <= c.born[x].at)
    && b.completed <= c.completed
    && (forall h :: h in c.completed && h !in b.completed ==> step <= h.del)
    && (forall id :: id in c.local.sessions && id in b.born ==>
         id in b.local.sessions && c.local.sessions[id] == b.local.sessions[id])
  }

  lemma OrphansAgree(b: Book, c: Book, step: nat, x: LocalId, k: nat)
    requires Extends(b, c, step) && x in b.born && k <= step
    ensures OrphanedBefore(c, x, k) == OrphanedBefore(b, x, k)
  {
  }

  lemma ListKept(b: Book, c: Book, now: int, step: nat, r: Reader)
    requires Known(b) && Known(c) && Extends(b, c, step) && ListOk(b, now, r) && r.at < step
    requires forall id :: id in r.ids ==> id in b.born
    ensures ListOk(c, now, r)
  {
    forall id | id in b.born ensures OrphanedBefore(c, id, r.at) == OrphanedBefore(b, id, r.at) {
      OrphansAgree(b, c, step, id, r.at);
    }
  }

  lemma SweepKept(b: Book, c: Book, now: int, step: nat, h: Handling)
    requires Known(b) && Known(c) && Extends(b, c, step) && SweptBy(b, now, h) && h.read < step
    ensures SweptBy(c, now, h)
  {
    forall id | id in b.born ensures OrphanedBefore(c, id, h.read) == OrphanedBefore(b, id, h.read) {
      OrphansAgree(b, c, step, id, h.read);
    }
  }

  /** Lists and sweeps survive; the rest of the invariant speaks of the new store only. */
  lemma InvFrom(b: Book, c: Book, ttl: int, now: int, step: nat)
    requires 0 < step && Inv(b, ttl, now, step - 1) && Extends(b, c, step) && Steps(c, step) && Known(c)
    requires AllFiled(c, ttl, now)
    requires forall t :: t in c.readers ==>
        (t in b.readers && c.readers[t] == b.readers[t]) || ListOk(c, now, c.readers[t])
    requires forall h :: h in c.completed && h !in b.completed ==> SweptBy(c, now, h)
    ensures Inv(c, ttl, now, step)
  {
    forall t | t in c.readers ensures ListOk(c, now, c.readers[t]) {
      if t in b.readers && c.readers[t] == b.readers[t] { ListKept(b, c, now, step, b.readers[t]); }
    }
    forall h | h in c.completed ensures SweptBy(c, now, h) {
      if h in b.completed { SweepKept(b, c, now, step, h); }
    }
  }

  /** A handling that read and deleted in one step orphans nobody. */
  lemma SameOrphans(b: Book, c: Book, x: LocalId)
    requires x in b.born && x in c.born && c.born[x] == b.born[x] && b.completed <= c.completed
    requires forall h :: h in c.completed && h !in b.completed ==> h.del <= h.read
    ensures Orphaned(c, x) == Orphaned(b, x)
  {
  }

  lemma NewIsNoOrphan(b: Book, c: Book, id: LocalId, step: nat)
    requires 0 < step && Steps(b, step - 1) && c.completed == b.completed && id in c.born && c.born[id].at == step
    ensures !Orphaned(c, id)
  {
  }

  lemma OpenedKnown(b: Book, ttl: int, id: LocalId, s: LocalSession, now: int, step: nat)
    requires Known(b) && id !in b.born
    ensures Known(Opened(b, ttl, id, s, now, step))
  {
  }

  /** The new session is filed, and the others are as they were. */
  lemma OpenedFiledOne(b: Book, ttl: int, id: LocalId, s: LocalSession, now: int, step: nat, x: LocalId)
    requires 0 < ttl && Known(b) && AllFiled(b, ttl, now) && id !in b.born
    requires var c := Opened(b, ttl, id, s, now, step);
             x in c.local.sessions
             && (x in b.born ==> Orphaned(c, x) == Orphaned(b, x))
    ensures x in Opened(b, ttl, id, s, now, step).born && Filed(Opened(b, ttl, id, s, now, step), ttl, now, x)
  {
    hide Orphaned;
    if x != id { assert Filed(b, ttl, now, x); }
  }

  lemma OpenedFiled(b: Book, ttl: int, id: LocalId, s: LocalSession, now: int, step: nat)
    requires 0 < ttl && 0 < step && Inv(b, ttl, now, step - 1) && id !in b.born
    ensures var c := Opened(b, ttl, id, s, now, step); Known(c) && AllFiled(c, ttl, now)
  {
    hide Orphaned, ListOk, SweptBy, Filed;
    var c := Opened(b, ttl, id, s, now, step);
    OpenedKnown(b, ttl, id, s, now, step);
    NewIsNoOrphan(b, c, id, step);
    forall x | x in b.born ensures Orphaned(c, x) == Orphaned(b, x) { SameOrphans(b, c, x); }
    forall x | x in c.local.sessions ensures Filed(c, ttl, now, x) { OpenedFiledOne(b, ttl, id, s, now, step, x); }
  }

  lemma OpenedKeepsInv(b: Book, ttl: int, id: LocalId, s: LocalSession, now: int, step: nat)
    requires 0 < ttl && 0 < step && Inv(b, ttl, now, step - 1) && id !in b.born
    ensures Inv(Opened(b, ttl, id, s, now, step), ttl, now, step)
  {
    OpenedFiled(b, ttl, id, s, now, step);
    InvFrom(b, Opened(b, ttl, id, s, now, step), ttl, now, step);
  }

  lemma ClosedKnown(b: Book, id: LocalId, now: int)
    requires Known(b) && id in b.born
    ensures Known(Closed(b, id, now))
  {
  }

  lemma ClosedFiledOne(b: Book, ttl: int, id: LocalId, now: int, x: LocalId)
    requires Known(b) && AllFiled(b, ttl, now) && id in b.born && x in Closed(b, id, now).local.sessions
    requires x in b.born ==> Orphaned(Closed(b, id, now), x) == Orphaned(b, x)
    ensures x in b.born && Filed(Closed(b, id, now), ttl, now, x)
  {
    hide Orphaned;
    assert Filed(b, ttl, now, x);
  }

  lemma ClosedFiled(b: Book, ttl: int, id: LocalId, now: int, step: nat)
    requires Inv(b, ttl, now, step) && id in b.born
    ensures var c := Closed(b, id, now); Known(c) && AllFiled(c, ttl, now)
  {
    hide Orphaned, ListOk, SweptBy, Filed;
    var c := Closed(b, id, now);
    ClosedKnown(b, id, now);
    forall x | x in b.born ensures Orphaned(c, x) == Orphaned(b, x) { SameOrphans(b, c, x); }
    forall x | x in c.local.sessions ensures Filed(c, ttl, now, x) { ClosedFiledOne(b, ttl, id, now, x); }
  }

  lemma ClosedKeepsInv(b: Book, ttl: int, id: LocalId, now: int, step: nat)
    requires 0 < step && Inv(b, ttl, now, step - 1) && id in b.born
    ensures Inv(Closed(b, id, now), ttl, now, step)
  {
    ClosedFiled(b, ttl, id, now, step - 1);
    InvFrom(b, Closed(b, id, now), ttl, now, step);
  }

  /** The live sessions of a sid that SMEMBERS does not list are the orphans. */
  lemma UnlistedIsOrphaned(b: Book, ttl: int, now: int, step: nat, id: LocalId)
    requires Inv(b, ttl, now, step) && id in b.local.sessions && Live(b.local.sessions, id, now)
    ensures id in b.born && (id !in SMembers(b.local.index, b.born[id].sid, now) <==> Orphaned(b, id))
  {
    assert Filed(b, ttl, now, id);
  }

  /** Whoever is orphaned by now was orphaned before the next step. */
  lemma OrphanedByNow(b: Book, id: LocalId, step: nat)
    requires Steps(b, step) && id in b.born
    ensures Orphaned(b, id) == OrphanedBefore(b, id, step + 1)
  {
  }

  lemma ListedNow(b: Book, ttl: int, sid: string, now: int, step: nat)
    requires 0 < step && Inv(b, ttl, now, step - 1)
    ensures var ids := SMembers(b.local.index, sid, now);
            && (forall x :: x in b.local.sessions && Live(b.local.sessions, x, now) && b.born[x].sid == sid ==>
                 x in ids || OrphanedBefore(b, x, step))
            && (forall x :: x in ids ==> x in b.born && b.born[x].sid == sid && !OrphanedBefore(b, x, step))
  {
    forall x | x in b.local.sessions && Live(b.local.sessions, x, now) && b.born[x].sid == sid
      ensures x in SMembers(b.local.index, sid, now) || OrphanedBefore(b, x, step)
    {
      UnlistedIsOrphaned(b, ttl, now, step - 1, x);
      OrphanedByNow(b, x, step - 1);
    }
    forall x | x in SMembers(b.local.index, sid, now)
      ensures x in b.born && b.born[x].sid == sid && !OrphanedBefore(b, x, step)
    {
      OrphanedByNow(b, x, step - 1);
    }
  }

  lemma ListedFiled(b: Book, ttl: int, tid: Tid, sid: string, now: int, step: nat)
    requires 0 < step && Inv(b, ttl, now, step - 1) && tid !in b.readers
    ensures var c := Listed(b, tid, sid, now, step); Known(c) && AllFiled(c, ttl, now)
  {
    hide Orphaned, ListOk, SweptBy;
    var c := Listed(b, tid, sid, now, step);
    ListedNow(b, ttl, sid, now, step);
    forall x | x in b.born ensures Orphaned(c, x) == Orphaned(b, x) { SameOrphans(b, c, x); }
    forall x | x in c.local.sessions ensures Filed(c, ttl, now, x) { assert Filed(b, ttl, now, x); }
  }

  lemma ListedKeepsInv(b: Book, ttl: int, tid: Tid, sid: string, now: int, step: nat)
    requires 0 < step && Inv(b, ttl, now, step - 1) && tid !in b.readers
    ensures Inv(Listed(b, tid, sid, now, step), ttl, now, step)
  {
    var c := Listed(b, tid, sid, now, step);
    ListedNow(b, ttl, sid, now, step);
    ListedFiled(b, ttl, tid, sid, now, step);
    forall x | x in b.born ensures OrphanedBefore(c, x, step) == OrphanedBefore(b, x, step) {
      OrphansAgree(b, c, step, x, step);
    }
    InvFrom(b, c, ttl, now, step);
  }

  /** After the DEL a session of the sid is still there exactly if it was created after the SMEMBERS, or orphaned by a
      handling that had completed before it. */
  lemma DeletedLeaves(b: Book, ttl: int, tid: Tid, now: int, step: nat, id: LocalId)
    requires Inv(b, ttl, now, step) && tid in b.readers && id in b.local.sessions && Live(b.local.sessions, id, now)
    requires b.born[id].sid == b.readers[tid].sid
    ensures id in Deleted(b, tid, step + 1).local.sessions <==>
        b.readers[tid].at < b.born[id].at || OrphanedBefore(b, id, b.readers[tid].at)
  {
    assert ListOk(b, now, b.readers[tid]);
  }

  lemma DeletedOrphans(b: Book, tid: Tid, step: nat, x: LocalId)
    requires tid in b.readers && x in b.born
    ensures var c, r := Deleted(b, tid, step), b.readers[tid];
            Orphaned(c, x) <==> Orphaned(b, x) || Missed(Handling(r.sid, r.at, step), b.born[x])
  {
    var c, r := Deleted(b, tid, step), b.readers[tid];
    if Missed(Handling(r.sid, r.at, step), b.born[x]) { assert Handling(r.sid, r.at, step) in c.completed; }
  }

  lemma DeletedFiled(b: Book, ttl: int, tid: Tid, now: int, step: nat, id: LocalId)
    requires 0 < step && Inv(b, ttl, now, step - 1) && tid in b.readers && id in Deleted(b, tid, step).local.sessions
    ensures id in b.born && Filed(Deleted(b, tid, step), ttl, now, id)
  {
    var c, r := Deleted(b, tid, step), b.readers[tid];
    DeletedOrphans(b, tid, step, id);
    assert Filed(b, ttl, now, id);
    if Live(b.local.sessions, id, now) && b.born[id].sid == r.sid {
      DeletedLeaves(b, ttl, tid, now, step - 1, id);
      assert OrphanedBefore(b, id, r.at) ==> Orphaned(b, id);
    }
  }

  lemma DeletedAllFiled(b: Book, ttl: int, tid: Tid, now: int, step: nat)
    requires 0 < step && Inv(b, ttl, now, step - 1) && tid in b.readers
    ensures var c := Deleted(b, tid, step); Known(c) && AllFiled(c, ttl, now)
  {
    var c := Deleted(b, tid, step);
    forall id | id in c.local.sessions ensures Filed(c, ttl, now, id) { DeletedFiled(b, ttl, tid, now, step, id); }
    forall sid, id | sid in c.local.index && id in c.local.index[sid].value ensures !Orphaned(c, id) {
      DeletedOrphans(b, tid, step, id);
    }
  }

  lemma DeletedSweeps(b: Book, ttl: int, tid: Tid, now: int, step: nat)
    requires 0 < step && Inv(b, ttl, now, step - 1) && tid in b.readers && Known(Deleted(b, tid, step))
    ensures SweptBy(Deleted(b, tid, step), now, Handling(b.readers[tid].sid, b.readers[tid].at, step))
  {
    var c, r := Deleted(b, tid, step), b.readers[tid];
    forall id | id in c.local.sessions && Live(c.local.sessions, id, now) && c.born[id].sid == r.sid
      ensures r.at < c.born[id].at || OrphanedBefore(c, id, r.at)
    {
      DeletedLeaves(b, ttl, tid, now, step - 1, id);
      OrphansAgree(b, c, step, id, r.at);
    }
  }

  lemma DeletedKeepsInv(b: Book, ttl: int, tid: Tid, now: int, step: nat)
    requires 0 < step && Inv(b, ttl, now, step - 1) && tid in b.readers
    ensures Inv(Deleted(b, tid, step), ttl, now, step)
  {
    DeletedAllFiled(b, ttl, tid, now, step);
    DeletedSweeps(b, ttl, tid, now, step);
    InvFrom(b, Deleted(b, tid, step), ttl, now, step);
  }

  // ---- whole runs ----

  datatype Event =
    | Advance(ms: nat)
    | OpenSession(id: LocalId, s: LocalSession)
    | CloseSession(id: LocalId)
    | ListSid(tid: Tid, sid: string)
    | DeleteListed(tid: Tid)

  datatype Shop = Shop(now: int, steps: nat, book: Book)

  function Step(ttl: int, s: Shop, op: Event): Shop {
    var n, b := s.steps + 1, s.book;
    match op
    case Advance(ms) => Shop(s.now + ms, n, b)
    // random ids are fresh
    case OpenSession(id, x) => Shop(s.now, n, if id in b.born then b else Opened(b, ttl, id, x, s.now, n))
    case CloseSession(id) => Shop(s.now, n, if id in b.born then Closed(b, id, s.now) else b)
    case ListSid(tid, sid) => Shop(s.now, n, if tid in b.readers then b else Listed(b, tid, sid, s.now, n))
    case DeleteListed(tid) => Shop(s.now, n, if tid in b.readers then Deleted(b, tid, n) else b)
  }

  function Run(ttl: int, start: int, ops: seq<Event>): Shop {
    if ops == [] then Shop(start, 0, BLANK) else Step(ttl, Run(ttl, start, ops[..|ops| - 1]), ops[|ops| - 1])
  }

  lemma StepKeepsInv(ttl: int, s: Shop, op: Event)
    requires 0 < ttl && Inv(s.book, ttl, s.now, s.steps)
    ensures var t := Step(ttl, s, op); Inv(t.book, ttl, t.now, t.steps)
  {
    var n, b := s.steps + 1, s.book;
    match op
    case Advance(ms) => LaterKeepsInv(b, ttl, s.now, s.now + ms, s.steps, n);
    case OpenSession(id, x) =>
      if id in b.born {
        LaterKeepsInv(b, ttl, s.now, s.now, s.steps, n);
      } else {
        OpenedKeepsInv(b, ttl, id, x, s.now, n);
      }
    case CloseSession(id) =>
      if id in b.born {
        ClosedKeepsInv(b, ttl, id, s.now, n);
      } else {
        LaterKeepsInv(b, ttl, s.now, s.now, s.steps, n);
      }
    case ListSid(tid, sid) =>
      if tid in b.readers {
        LaterKeepsInv(b, ttl, s.now, s.now, s.steps, n);
      } else {
        ListedKeepsInv(b, ttl, tid, sid, s.now, n);
      }
    case DeleteListed(tid) =>
      if tid in b.readers {
        DeletedKeepsInv(b, ttl, tid, s.now, n);
      } else {
        LaterKeepsInv(b, ttl, s.now, s.now, s.steps, n);
      }
  }

  lemma {:induction false} RunKeepsInv(ttl: int, start: int, ops: seq<Event>)
    requires 0 < ttl
    ensures var s := Run(ttl, start, ops); Inv(s.book, ttl, s.now, s.steps)
  {
    if ops != [] {
      RunKeepsInv(ttl, start, ops[..|ops| - 1]);
      StepKeepsInv(ttl, Run(ttl, start, ops[..|ops| - 1]), ops[|ops| - 1]);
    }
  }

  // ---- main results ----

  /** Under any interleaving a live session is missing from the set of its sid exactly if it was created between the
      SMEMBERS and the DEL of some completed destroyBySid of that sid. */
  lemma OrphanedExactlyWhen(ttl: int, start: int, ops: seq<Event>, id: LocalId)
    requires 0 < ttl
    ensures var s := Run(ttl, start, ops); var b := s.book;
            id in b.local.sessions && Live(b.local.sessions, id, s.now) ==>
              && id in b.born && b.born[id].sid == b.local.sessions[id].value.sid
              && (id !in SMembers(b.local.index, b.born[id].sid, s.now) <==>
                   exists h :: h in b.completed && Missed(h, b.born[id]))
  {
    RunKeepsInv(ttl, start, ops);
    var s := Run(ttl, start, ops);
    if id in s.book.local.sessions && Live(s.book.local.sessions, id, s.now) {
      UnlistedIsOrphaned(s.book, ttl, s.now, s.steps, id);
    }
  }

  /** What a DEL changes for a reader of sessions: of its sid exactly those stay that were created after its SMEMBERS or
      were orphaned before it; no session of another sid changes. */
  lemma DestroyBySidLeavesExactly(ttl: int, start: int, ops: seq<Event>, tid: Tid, id: LocalId)
    requires 0 < ttl && tid in Run(ttl, start, ops).book.readers
    ensures var s, t := Run(ttl, start, ops), Run(ttl, start, ops + [DeleteListed(tid)]);
            var b, r := s.book, s.book.readers[tid];
            var before := Lookup(b.local, id, s.now);
            && (before.Some? ==> id in b.born)
            && Lookup(t.book.local, id, t.now)
               == if before.Some? && before.value.sid == r.sid && !(r.at < b.born[id].at || OrphanedBefore(b, id, r.at))
                 then None else before
  {
    RunKeepsInv(ttl, start, ops);
    assert (ops + [DeleteListed(tid)])[..|ops|] == ops;
    var s := Run(ttl, start, ops);
    var b, r := s.book, s.book.readers[tid];
    assert Run(ttl, start, ops + [DeleteListed(tid)]) == Shop(s.now, s.steps + 1, Deleted(b, tid, s.steps + 1));
    if id in b.local.sessions && Live(b.local.sessions, id, s.now) && b.born[id].sid == r.sid {
      DeletedLeaves(b, ttl, tid, s.now, s.steps, id);
    }
  }

  /** And so it stays: at any later time, what can be read of the sid was created after that SMEMBERS or orphaned before
      it. */
  lemma HandlingLeaves(ttl: int, start: int, ops: seq<Event>, h: Handling, id: LocalId)
    requires 0 < ttl && h in Run(ttl, start, ops).book.completed
    ensures var s := Run(ttl, start, ops);
            Lookup(s.book.local, id, s.now).Some? && Lookup(s.book.local, id, s.now).value.sid == h.sid ==>
              id in s.book.born && (h.read < s.book.born[id].at || OrphanedBefore(s.book, id, h.read))
  {
    RunKeepsInv(ttl, start, ops);
    var s := Run(ttl, start, ops);
    assert SweptBy(s.book, s.now, h);
  }

  lemma RunOfLast(ttl: int, start: int, ops: seq<Event>, more: seq<Event>)
    requires more != []
    ensures Run(ttl, start, ops + more) == Step(ttl, Run(ttl, start, ops + more[..|more| - 1]), more[|more| - 1])
  {
    var all := ops + more;
    assert all[..|all| - 1] == ops + more[..|more| - 1];
  }

  /** An orphan that no handler has listed lives out its time: only a destroy of its own id ends it earlier. */
  lemma {:induction false} EscapeLasts(ttl: int, start: int, ops: seq<Event>, more: seq<Event>, id: LocalId)
    requires 0 < ttl && CloseSession(id) !in more
    requires var s := Run(ttl, start, ops);
             && id in s.book.local.sessions && id in s.book.born && Orphaned(s.book, id)
             && forall t :: t in s.book.readers ==> id !in s.book.readers[t].ids
    ensures var s, u := Run(ttl, start, ops), Run(ttl, start, ops + more);
            && id in u.book.local.sessions && u.book.local.sessions[id] == s.book.local.sessions[id]
            && id in u.book.born && Orphaned(u.book, id) && forall t :: t in u.book.readers ==>
                 id !in u.book.readers[t].ids
  {
    hide Run, Orphaned, Inv;
    if more == [] {
      assert ops + more == ops;
    } else {
      var front, op := more[..|more| - 1], more[|more| - 1];
      RunOfLast(ttl, start, ops, more);
      EscapeLasts(ttl, start, ops, front, id);
      RunKeepsInv(ttl, start, ops + front);
      EscapeStep(ttl, Run(ttl, start, ops + front), op, id);
    }
  }

  lemma EscapeStep(ttl: int, s: Shop, op: Event, id: LocalId)
    requires Inv(s.book, ttl, s.now, s.steps) && op != CloseSession(id)
    requires id in s.book.local.sessions && id in s.book.born && Orphaned(s.book, id)
    requires forall t :: t in s.book.readers ==> id !in s.book.readers[t].ids
    ensures var u := Step(ttl, s, op);
            && id in u.book.local.sessions && u.book.local.sessions[id] == s.book.local.sessions[id]
            && id in u.book.born && Orphaned(u.book, id) && forall t :: t in u.book.readers ==>
                 id !in u.book.readers[t].ids
  {
    var u := Step(ttl, s, op);
    var h :| h in s.book.completed && Missed(h, s.book.born[id]);
    assert h in u.book.completed && u.book.born[id] == s.book.born[id];
    assert forall sid :: id !in SMembers(s.book.local.index, sid, s.now);
  }

  /** Any session created between a handler's two commands escapes it, whatever the store holds, and the next
      destroyBySid does not list it. */
  lemma CreateBetweenEscapes(ttl: int, start: int, ops: seq<Event>, tid: Tid, id: LocalId, s: LocalSession)
    requires 0 < ttl && WellFormedId(id) && id !in Run(ttl, start, ops).book.born
    requires tid in Run(ttl, start, ops).book.readers && Run(ttl, start, ops).book.readers[tid].sid == s.sid
    ensures var u := Run(ttl, start, ops + [OpenSession(id, s)] + [DeleteListed(tid)]);
            && Lookup(u.book.local, id, u.now) == Some(s)
            && id !in SMembers(u.book.local.index, s.sid, u.now)
  {
    var mid := ops + [OpenSession(id, s)];
    assert mid[..|ops|] == ops && (mid + [DeleteListed(tid)])[..|mid|] == mid;
    RunKeepsInv(ttl, start, ops);
    DestroyBySidLeavesExactly(ttl, start, mid, tid, id);
  }

  // ---- run alone, the commands of a call are the call ----

  /** The steps on the store are those of the sequential model: create, destroy of a live session, and destroyBySid,
      whose SMEMBERS and DEL run without anything in between. */
  lemma CommandsAlone(b: Book, ttl: int, tid: Tid, id: LocalId, s: LocalSession, now: int, step: nat, next: nat)
    requires id !in b.born && tid !in b.readers
    ensures Opened(b, ttl, id, s, now, step).local == Create(b.local, ttl, id, s, now)
    ensures var c := Listed(b, tid, s.sid, now, step);
            (if tid in c.readers then Deleted(c, tid, next) else c).local == DestroyBySid(b.local, s.sid, now)
  {
  }

  lemma CloseAlone(b: Book, id: LocalId, now: int)
    requires Known(b) && Lookup(b.local, id, now).Some?
    ensures id in b.born && Closed(b, id, now).local == Destroy(b.local, id, now)
  {
  }
}
