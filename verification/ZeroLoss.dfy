/** The zero-loss message store at the grain of service calls: every call is one step of a deterministic
    store, time passes between calls, and a crashed worker is one that makes no further call
    (src/queue/zero-loss-message.service.ts). */
module ZeroLoss {
  import opened Common

  datatype Status = Pending | Processing | Completed | Failed

  type Id = string
  type Queue = string
  type Worker = string

  /** The fields of a message hash that any branch of the service reads, plus the payload. */
  datatype Message = Message(
    queue: Queue, data: string, status: Status, attempts: nat, maxAttempts: int,
    acknowledged: bool, completedAt: Option<int>)

  datatype Lease = Lease(owner: Worker, until: int)

  datatype Store = Store(messages: map<Id, Message>, queues: map<Queue, set<Id>>, leases: map<Id, Lease>, now: int)

  /** A lease key is there until its time to live has run out. */
  predicate Live(s: Store, id: Id) {
    id in s.leases && s.now < s.leases[id].until
  }

  function QueueIds(s: Store, q: Queue): set<Id> {
    if q in s.queues then s.queues[q] else {}
  }

  // ---------- The calls ----------

  function Persist(s: Store, id: Id, queue: Queue, data: string, maxAttempts: int): Store {
    s.(messages := s.messages[id := Message(queue, data, Pending, 0, maxAttempts, false, None)],
       queues := s.queues[queue := QueueIds(s, queue) + {id}])
  }

  predicate Claimable(s: Store, id: Id) {
    !Live(s, id) && id in s.messages && s.messages[id].status.Pending?
  }

  /** `markProcessing`: a refused claim that had set the lease deletes it again. */
  function Claim(s: Store, id: Id, w: Worker, ttl: nat): Store {
    if Live(s, id) then s
    else if !Claimable(s, id) then s.(leases := s.leases - {id})
    else
      var m := s.messages[id];
      s.(messages := s.messages[id := m.(attempts := m.attempts + 1, status := Processing)],
         leases := s.leases[id := Lease(w, s.now + ttl)])
  }

  predicate Holds(s: Store, id: Id, w: Worker) {
    Live(s, id) && s.leases[id].owner == w
  }

  function Renew(s: Store, id: Id, w: Worker, ttl: nat): Store {
    if Holds(s, id, w) then s.(leases := s.leases[id := Lease(w, s.now + ttl)]) else s
  }

  /** Acknowledge, complete, fail and retry: rewrite the message and drop the lease, whoever holds it. */
  function Rewrite(s: Store, id: Id, m: Message): Store {
    s.(messages := s.messages[id := m], leases := s.leases - {id})
  }

  function Acknowledge(s: Store, id: Id): Store {
    if id !in s.messages then s else Rewrite(s, id, s.messages[id].(acknowledged := true))
  }

  function Complete(s: Store, id: Id): Store {
    if id !in s.messages then s else Rewrite(s, id, s.messages[id].(status := Completed, completedAt := Some(s.now)))
  }

  function Fail(s: Store, id: Id): Store {
    if id !in s.messages then s else Rewrite(s, id, s.messages[id].(status := Failed))
  }

  /** Only the attempts are checked, never the status. */
  predicate Retryable(s: Store, id: Id) {
    id in s.messages && s.messages[id].attempts < s.messages[id].maxAttempts
  }

  function Retry(s: Store, id: Id): Store {
    if Retryable(s, id) then Rewrite(s, id, s.messages[id].(status := Pending)) else s
  }

  /** Exactly what the sweep tests under its own claim. */
  predicate Orphan(s: Store, id: Id) {
    && id in s.messages
    && s.messages[id].status.Processing?
    && !s.messages[id].acknowledged
    && !Live(s, id)
  }

  function Orphans(s: Store): set<Id> {
    set id | id in s.messages && Orphan(s, id)
  }

  function Requeued(m: Message): Message {
    m.(status := if m.attempts < m.maxAttempts then Pending else Failed)
  }

  function RecoverOne(s: Store, id: Id): Store {
    if Orphan(s, id) then Rewrite(s, id, Requeued(s.messages[id])) else s
  }

  /** A sweep over `ids`, described pointwise: every orphan among them is requeued, nothing else changes. */
  function SweepOver(s: Store, ids: set<Id>): Store {
    s.(messages := map id | id in s.messages ::
         if id in ids && Orphan(s, id) then Requeued(s.messages[id]) else s.messages[id],
       leases := s.leases - (Orphans(s) * ids))
  }

  function Sweep(s: Store): Store {
    SweepOver(s, s.messages.Keys)
  }

  predicate Stale(s: Store, id: Id, maxAge: int) {
    && id in s.messages
    && s.messages[id].status.Completed?
    && s.messages[id].completedAt.Some?
    && s.messages[id].completedAt.value < s.now - maxAge
  }

  function StaleIds(s: Store, maxAge: int): set<Id> {
    set id | id in s.messages && Stale(s, id, maxAge)
  }

  function OfQueue(s: Store, ids: set<Id>, q: Queue): set<Id> {
    set id | id in ids && id in s.messages && s.messages[id].queue == q
  }

  /** A cleanup over `ids`, described pointwise. */
  function CleanOver(s: Store, maxAge: int, ids: set<Id>): Store {
    var gone := StaleIds(s, maxAge) * ids;
    s.(messages := s.messages - gone,
       queues := map q | q in s.queues :: s.queues[q] - OfQueue(s, gone, q))
  }

  function Cleanup(s: Store, maxAge: int): Store {
    CleanOver(s, maxAge, s.messages.Keys)
  }

  // ---------- Runs ----------

  datatype Event =
    | PersistE(id: Id, queue: Queue, data: string, maxAttempts: int)
    | ClaimE(id: Id, w: Worker)
    | RenewE(id: Id, w: Worker)
    | AcknowledgeE(id: Id)
    | CompleteE(id: Id)
    | FailE(id: Id)
    | RetryE(id: Id)
    | SweepE
    | CleanupE(maxAge: int)
    | TickE(ms: nat)

  function Apply(s: Store, e: Event, ttl: nat): Store {
    match e
    case PersistE(id, queue, data, maxAttempts) => Persist(s, id, queue, data, maxAttempts)
    case ClaimE(id, w) => Claim(s, id, w, ttl)
    case RenewE(id, w) => Renew(s, id, w, ttl)
    case AcknowledgeE(id) => Acknowledge(s, id)
    case CompleteE(id) => Complete(s, id)
    case FailE(id) => Fail(s, id)
    case RetryE(id) => Retry(s, id)
    case SweepE => Sweep(s)
    case CleanupE(maxAge) => Cleanup(s, maxAge)
    case TickE(ms) => s.(now := s.now + ms)
  }

  function After(s: Store, es: seq<Event>, ttl: nat): Store
    decreases |es|
  {
    if es == [] then s else After(Apply(s, es[0], ttl), es[1..], ttl)
  }

  function Empty(now: int): Store { Store(map[], map[], map[], now) }

  // ---------- The invariant ----------

  /** How often a message may be handed out; a limit below one still allows one claim. */
  function Cap(m: Message): nat { if m.maxAttempts < 1 then 1 else m.maxAttempts }

  predicate AttemptsBounded(m: Message) {
    m.attempts <= Cap(m) && (m.status.Pending? ==> m.attempts < Cap(m))
  }

  /** A live lease belongs to a message in processing. */
  predicate LeaseMeansProcessing(s: Store, id: Id) {
    Live(s, id) ==> id in s.messages && s.messages[id].status.Processing?
  }

  /** A queue's id set lists exactly the stored messages of that queue. */
  ghost predicate IndexExact(s: Store) {
    forall q, id :: id in QueueIds(s, q) <==> id in s.messages && s.messages[id].queue == q
  }

  ghost predicate Inv(s: Store) {
    && (forall id :: id in s.messages ==> AttemptsBounded(s.messages[id]))
    && (forall id :: id in s.leases ==> LeaseMeansProcessing(s, id))
    && IndexExact(s)
  }

  /** Persisting is harmless on an unused id, and on a used one that stays in its queue and has no live lease. */
  predicate HarmlessPersist(s: Store, e: Event) {
    e.PersistE? && e.id in s.messages ==> s.messages[e.id].queue == e.queue && !Live(s, e.id)
  }

  /** A call that leaves ids and queues alone, bounds attempts and keeps live leases on processing messages. */
  lemma QuietCallKeepsInv(s: Store, s': Store)
    requires Inv(s) && s'.messages.Keys == s.messages.Keys && s'.queues == s.queues
    requires forall id :: id in s.messages ==>
      s'.messages[id].queue == s.messages[id].queue && AttemptsBounded(s'.messages[id])
    requires forall id :: id in s'.leases ==> LeaseMeansProcessing(s', id)
    ensures Inv(s')
  {
    forall q, id ensures id in QueueIds(s', q) <==> id in s'.messages && s'.messages[id].queue == q {
      assert id in QueueIds(s, q) <==> id in s.messages && s.messages[id].queue == q;
    }
  }

  lemma SweepKeepsInv(s: Store)
    requires Inv(s)
    ensures Inv(Sweep(s))
  {
    forall id | id in s.messages ensures AttemptsBounded(Sweep(s).messages[id]) {
      assert AttemptsBounded(s.messages[id]);
    }
    forall id | id in Sweep(s).leases ensures LeaseMeansProcessing(Sweep(s), id) {
      assert LeaseMeansProcessing(s, id);
    }
    QuietCallKeepsInv(s, Sweep(s));
  }

  predicate Lifecycle(e: Event) { !e.PersistE? && !e.SweepE? && !e.CleanupE? }

  lemma LifecycleKeepsBounds(s: Store, e: Event, ttl: nat, id: Id)
    requires Lifecycle(e) && id in s.messages && AttemptsBounded(s.messages[id])
    ensures id in Apply(s, e, ttl).messages
    ensures Apply(s, e, ttl).messages[id].queue == s.messages[id].queue
    ensures AttemptsBounded(Apply(s, e, ttl).messages[id])
  {
  }

  lemma LifecycleKeepsLease(s: Store, e: Event, ttl: nat, id: Id)
    requires Lifecycle(e) && (id in s.leases ==> LeaseMeansProcessing(s, id))
    ensures LeaseMeansProcessing(Apply(s, e, ttl), id)
  {
  }

  lemma LifecycleKeepsInv(s: Store, e: Event, ttl: nat)
    requires Inv(s) && Lifecycle(e)
    ensures Inv(Apply(s, e, ttl))
  {
    var s' := Apply(s, e, ttl);
    forall id | id in s.messages
      ensures id in s'.messages && s'.messages[id].queue == s.messages[id].queue && AttemptsBounded(s'.messages[id])
    {
      LifecycleKeepsBounds(s, e, ttl, id);
    }
    forall id | id in s'.leases ensures LeaseMeansProcessing(s', id) {
      LifecycleKeepsLease(s, e, ttl, id);
    }
    assert s'.messages.Keys == s.messages.Keys && s'.queues == s.queues;
    QuietCallKeepsInv(s, s');
  }

  /** The exact condition under which a call keeps the invariant: only a careless re-persist breaks it. */
  lemma ApplyKeepsInvIff(s: Store, e: Event, ttl: nat)
    requires Inv(s)
    ensures Inv(Apply(s, e, ttl)) <==> HarmlessPersist(s, e)
  {
    match e
    case PersistE(id, queue, data, maxAttempts) =>
      PersistKeepsInvIff(s, id, queue, data, maxAttempts);
    case SweepE =>
      SweepKeepsInv(s);
    case CleanupE(maxAge) =>
      CleanupKeepsInv(s, maxAge);
    case _ =>
      LifecycleKeepsInv(s, e, ttl);
  }

  lemma PersistKeepsInvIff(s: Store, id: Id, queue: Queue, data: string, maxAttempts: int)
    requires Inv(s)
    ensures Inv(Persist(s, id, queue, data, maxAttempts)) <==>
      (id in s.messages ==> s.messages[id].queue == queue && !Live(s, id))
  {
    var s' := Persist(s, id, queue, data, maxAttempts);
    if id in s.messages && s.messages[id].queue != queue {
      var q := s.messages[id].queue;
      assert id in QueueIds(s, q);
      assert QueueIds(s', q) == QueueIds(s, q);
      assert s'.messages[id].queue != q;
    } else if Live(s, id) {
      assert LeaseMeansProcessing(s, id);
      assert id in s'.leases && !LeaseMeansProcessing(s', id);
    } else {
      forall q ensures QueueIds(s', q) == QueueIds(s, q) + if q == queue then {id} else {} {
      }
      forall k | k in s'.leases ensures LeaseMeansProcessing(s', k) {
        assert LeaseMeansProcessing(s, k);
      }
    }
  }

  lemma CleanupKeepsInv(s: Store, maxAge: int)
    requires Inv(s)
    ensures Inv(Cleanup(s, maxAge))
  {
    var s' := Cleanup(s, maxAge);
    forall q, id ensures id in QueueIds(s', q) <==> id in s'.messages && s'.messages[id].queue == q {
      assert id in QueueIds(s, q) <==> id in s.messages && s.messages[id].queue == q;
    }
    forall id | id in s'.leases ensures LeaseMeansProcessing(s', id) {
      assert LeaseMeansProcessing(s, id);
    }
  }

  ghost predicate HarmlessRun(s: Store, es: seq<Event>, ttl: nat)
    decreases |es|
  {
    es == [] || (HarmlessPersist(s, es[0]) && HarmlessRun(Apply(s, es[0], ttl), es[1..], ttl))
  }

  lemma {:induction false} RunKeepsInv(s: Store, es: seq<Event>, ttl: nat)
    requires Inv(s) && HarmlessRun(s, es, ttl)
    ensures Inv(After(s, es, ttl))
    decreases |es|
  {
    if es != [] {
      ApplyKeepsInvIff(s, es[0], ttl);
      RunKeepsInv(Apply(s, es[0], ttl), es[1..], ttl);
    }
  }

  /** Every state reachable from an empty store satisfies the invariant; in particular the integrity check's
      "Exceeded max retry attempts" branch needs a message persisted with a limit below one. */
  lemma ReachableInv(now: int, es: seq<Event>, ttl: nat)
    requires HarmlessRun(Empty(now), es, ttl)
    ensures Inv(After(Empty(now), es, ttl))
    ensures forall id :: id in After(Empty(now), es, ttl).messages ==>
      var m := After(Empty(now), es, ttl).messages[id];
      m.attempts > m.maxAttempts ==> m.maxAttempts < 1
  {
    RunKeepsInv(Empty(now), es, ttl);
    var s := After(Empty(now), es, ttl);
    forall id | id in s.messages ensures s.messages[id].attempts > s.messages[id].maxAttempts ==> s.messages[id].maxAttempts < 1 {
      assert AttemptsBounded(s.messages[id]);
    }
  }

  // ---------- Hand-outs ----------

  predicate HandsOut(s: Store, e: Event, id: Id) {
    e.ClaimE? && e.id == id && Claimable(s, id)
  }

  predicate Requeues(s: Store, e: Event, id: Id) {
    e.SweepE? && Orphan(s, id)
  }

  function HandOuts(s: Store, es: seq<Event>, ttl: nat, id: Id): nat
    decreases |es|
  {
    if es == [] then 0
    else (if HandsOut(s, es[0], id) then 1 else 0) + HandOuts(Apply(s, es[0], ttl), es[1..], ttl, id)
  }

  function Recoveries(s: Store, es: seq<Event>, ttl: nat, id: Id): nat
    decreases |es|
  {
    if es == [] then 0
    else (if Requeues(s, es[0], id) then 1 else 0) + Recoveries(Apply(s, es[0], ttl), es[1..], ttl, id)
  }

  predicate PersistsAgain(es: seq<Event>, id: Id) {
    exists i :: 0 <= i < |es| && es[i].PersistE? && es[i].id == id
  }

  /** What any single call can do to a stored message it does not persist anew. */
  lemma OneCall(s: Store, e: Event, ttl: nat, id: Id)
    requires id in s.messages && !(e.PersistE? && e.id == id)
    ensures id !in Apply(s, e, ttl).messages <==> e.CleanupE? && Stale(s, id, e.maxAge)
    ensures id in Apply(s, e, ttl).messages ==>
      var m, m' := s.messages[id], Apply(s, e, ttl).messages[id];
      && m'.queue == m.queue && m'.data == m.data && m'.maxAttempts == m.maxAttempts
      && m'.attempts == m.attempts + (if HandsOut(s, e, id) then 1 else 0)
      && (m.acknowledged ==> m'.acknowledged)
  {
  }

  /** Attempts count hand-outs exactly, for as long as the message is stored. */
  lemma {:induction false} AttemptsCountHandOuts(s: Store, es: seq<Event>, ttl: nat, id: Id)
    requires id in s.messages && !PersistsAgain(es, id) && id in After(s, es, ttl).messages
    ensures After(s, es, ttl).messages[id].attempts == s.messages[id].attempts + HandOuts(s, es, ttl, id)
    decreases |es|
  {
    if es != [] {
      OneCall(s, es[0], ttl, id);
      NoPersistInTail(es, id);
      if id in Apply(s, es[0], ttl).messages {
        AttemptsCountHandOuts(Apply(s, es[0], ttl), es[1..], ttl, id);
      } else {
        StaysAbsent(Apply(s, es[0], ttl), es[1..], ttl, id);
      }
    }
  }

  lemma NoPersistInTail(es: seq<Event>, id: Id)
    requires es != [] && !PersistsAgain(es, id)
    ensures !PersistsAgain(es[1..], id) && !(es[0].PersistE? && es[0].id == id)
  {
    forall i | 0 <= i < |es[1..]| ensures !(es[1..][i].PersistE? && es[1..][i].id == id) {
      assert es[1..][i] == es[i + 1];
    }
  }

  lemma {:induction false} StaysAbsent(s: Store, es: seq<Event>, ttl: nat, id: Id)
    requires id !in s.messages && !PersistsAgain(es, id)
    ensures id !in After(s, es, ttl).messages && HandOuts(s, es, ttl, id) == Recoveries(s, es, ttl, id) == 0
    decreases |es|
  {
    if es != [] {
      NoPersistInTail(es, id);
      StaysAbsent(Apply(s, es[0], ttl), es[1..], ttl, id);
    }
  }

  /** The measure that hand-outs and recoveries use up. */
  function Budget(s: Store, id: Id): int {
    if id !in s.messages then 0
    else 2 * (Cap(s.messages[id]) - s.messages[id].attempts) + if s.messages[id].status.Processing? then 1 else 0
  }

  lemma OneCallSpends(s: Store, e: Event, ttl: nat, id: Id)
    requires Inv(s) && !(e.PersistE? && e.id == id)
    ensures Budget(s, id) >= 0
    ensures Budget(Apply(s, e, ttl), id) <=
      Budget(s, id) - (if HandsOut(s, e, id) then 1 else 0) - (if Requeues(s, e, id) then 1 else 0)
  {
    if id in s.messages {
      assert AttemptsBounded(s.messages[id]);
      OneCall(s, e, ttl, id);
    }
  }

  /** However calls, crashes and sweeps interleave, hand-outs and recoveries together fit in the budget, so
      a message is neither handed out nor requeued forever. */
  lemma {:induction false} RunSpendsBudget(s: Store, es: seq<Event>, ttl: nat, id: Id)
    requires Inv(s) && HarmlessRun(s, es, ttl) && !PersistsAgain(es, id)
    ensures HandOuts(s, es, ttl, id) + Recoveries(s, es, ttl, id) <= Budget(s, id)
    decreases |es|
  {
    if es == [] {
      OneCallSpends(s, TickE(0), ttl, id);
    } else {
      NoPersistInTail(es, id);
      OneCallSpends(s, es[0], ttl, id);
      ApplyKeepsInvIff(s, es[0], ttl);
      RunSpendsBudget(Apply(s, es[0], ttl), es[1..], ttl, id);
    }
  }

  /** A persisted message is handed out at most `max(1, maxAttempts)` times in any run. */
  lemma {:induction false} HandOutsBounded(s: Store, es: seq<Event>, ttl: nat, id: Id)
    requires Inv(s) && HarmlessRun(s, es, ttl) && !PersistsAgain(es, id) && id in s.messages
    ensures s.messages[id].attempts + HandOuts(s, es, ttl, id) <= Cap(s.messages[id])
    decreases |es|
  {
    assert AttemptsBounded(s.messages[id]);
    if es != [] {
      NoPersistInTail(es, id);
      OneCall(s, es[0], ttl, id);
      ApplyKeepsInvIff(s, es[0], ttl);
      if id in Apply(s, es[0], ttl).messages {
        HandOutsBounded(Apply(s, es[0], ttl), es[1..], ttl, id);
      } else {
        StaysAbsent(Apply(s, es[0], ttl), es[1..], ttl, id);
      }
    }
  }

  // ---------- Nothing is lost ----------

  /** A message that is gone was completed and removed by a cleanup: the run is cut at that cleanup. */
  lemma {:induction false} LostOnlyByCleanup(s: Store, es: seq<Event>, ttl: nat, id: Id) returns (k: nat)
    requires id in s.messages && !PersistsAgain(es, id) && id !in After(s, es, ttl).messages
    ensures k < |es| && es[k].CleanupE?
    ensures Stale(After(s, es[..k], ttl), id, es[k].maxAge)
    ensures After(s, es[..k], ttl).messages[id].data == s.messages[id].data
    ensures After(s, es[..k], ttl).messages[id].queue == s.messages[id].queue
    decreases |es|
  {
    OneCall(s, es[0], ttl, id);
    NoPersistInTail(es, id);
    if id !in Apply(s, es[0], ttl).messages {
      k := 0;
    } else {
      var j := LostOnlyByCleanup(Apply(s, es[0], ttl), es[1..], ttl, id);
      k := j + 1;
      assert es[..k][1..] == es[1..][..j];
    }
  }

  /** As long as a message is stored, whatever happens, it keeps its payload, its queue and its limit. */
  lemma {:induction false} PayloadNeverChanges(s: Store, es: seq<Event>, ttl: nat, id: Id)
    requires id in s.messages && !PersistsAgain(es, id) && id in After(s, es, ttl).messages
    ensures
      var m, m' := s.messages[id], After(s, es, ttl).messages[id];
      m'.data == m.data && m'.queue == m.queue && m'.maxAttempts == m.maxAttempts
    decreases |es|
  {
    if es != [] {
      OneCall(s, es[0], ttl, id);
      NoPersistInTail(es, id);
      if id in Apply(s, es[0], ttl).messages {
        PayloadNeverChanges(Apply(s, es[0], ttl), es[1..], ttl, id);
      } else {
        StaysAbsent(Apply(s, es[0], ttl), es[1..], ttl, id);
      }
    }
  }

  // ---------- Recovery ----------

  /** One sweep requeues every orphan, leaves none, and touches no other message and no live lease. */
  lemma SweepExact(s: Store)
    ensures Orphans(Sweep(s)) == {}
    ensures forall id :: id in s.messages <==> id in Sweep(s).messages
    ensures forall id :: id in s.messages ==>
      Sweep(s).messages[id] == if Orphan(s, id) then Requeued(s.messages[id]) else s.messages[id]
    ensures forall id :: Live(s, id) <==> Live(Sweep(s), id)
    ensures Sweep(s).queues == s.queues
  {
    forall id ensures Live(s, id) <==> Live(Sweep(s), id) {
    }
  }

  /** What a sweep does to a message in processing whose lease is gone depends on the acknowledgement alone. */
  lemma SweepMovesIff(s: Store, id: Id)
    requires id in s.messages && s.messages[id].status.Processing? && !Live(s, id)
    ensures id in Sweep(s).messages
    ensures Sweep(s).messages[id].status.Processing? <==> s.messages[id].acknowledged
  {
  }

  /** Over runs: once the lease of a message in processing is gone, and as long as nobody settles it, the next sweep takes
      it out of processing exactly when it was not acknowledged. */
  lemma {:induction false} RecoveredIffUnacknowledged(s: Store, es: seq<Event>, ttl: nat, id: Id)
    requires id in s.messages && s.messages[id].status.Processing? && !Live(s, id)
    requires LeftToWorkers(es, id) && (forall i :: 0 <= i < |es| ==> !es[i].SweepE?)
    ensures id in After(s, es, ttl).messages && id in Sweep(After(s, es, ttl)).messages
    ensures Sweep(After(s, es, ttl)).messages[id].status.Processing? <==> s.messages[id].acknowledged
    decreases |es|
  {
    if es == [] {
      SweepMovesIff(s, id);
    } else {
      LeftInTail(es, id);
      var rest := es[1..];
      forall i | 0 <= i < |rest| ensures !rest[i].SweepE? {
        assert rest[i] == es[i + 1];
      }
      OrphanWaits(s, es[0], ttl, id);
      RecoveredIffUnacknowledged(Apply(s, es[0], ttl), rest, ttl, id);
    }
  }

  lemma OrphanWaits(s: Store, e: Event, ttl: nat, id: Id)
    requires id in s.messages && s.messages[id].status.Processing? && !Live(s, id) && !Settles(e, id) && !e.SweepE?
    ensures id in Apply(s, e, ttl).messages && Apply(s, e, ttl).messages[id] == s.messages[id] && !Live(Apply(s, e, ttl), id)
  {
  }

  /** The calls that rewrite one message or drop its lease, whoever holds it. */
  predicate Settles(e: Event, id: Id) {
    (e.PersistE? || e.AcknowledgeE? || e.CompleteE? || e.FailE? || e.RetryE?) && e.id == id
  }

  predicate LeftToWorkers(es: seq<Event>, id: Id) {
    forall i :: 0 <= i < |es| ==> !Settles(es[i], id)
  }

  lemma LeftInTail(es: seq<Event>, id: Id)
    requires es != [] && LeftToWorkers(es, id)
    ensures !Settles(es[0], id) && LeftToWorkers(es[1..], id)
  {
    forall i | 0 <= i < |es[1..]| ensures !Settles(es[1..][i], id) {
      assert es[1..][i] == es[i + 1];
    }
  }

  predicate IsRenewal(e: Event, id: Id, w: Worker) { e.RenewE? && e.id == id && e.w == w }

  /** The worker renews in time: from one renewal to the next less time passes than its lease has `left`. */
  predicate RenewsInTime(es: seq<Event>, id: Id, w: Worker, left: int, ttl: nat)
    decreases |es|
  {
    if es == [] then true
    else if es[0].TickE? then es[0].ms < left && RenewsInTime(es[1..], id, w, left - es[0].ms, ttl)
    else RenewsInTime(es[1..], id, w, if IsRenewal(es[0], id, w) then ttl else left, ttl)
  }

  /** `w` is working on message `m` and its lease runs for another `left` milliseconds. */
  predicate WorksOn(s: Store, id: Id, w: Worker, m: Message, left: int) {
    && id in s.messages && s.messages[id] == m && m.status.Processing?
    && id in s.leases && s.leases[id] == Lease(w, s.now + left) && 0 < left
  }

  lemma OneCallWhileWorking(s: Store, e: Event, ttl: nat, id: Id, w: Worker, m: Message, left: int)
    requires WorksOn(s, id, w, m, left) && !Settles(e, id) && 0 < ttl && (e.TickE? ==> e.ms < left)
    ensures WorksOn(Apply(s, e, ttl), id, w, m,
                    if e.TickE? then left - e.ms else if IsRenewal(e, id, w) then ttl else left)
  {
    assert Live(s, id);
  }

  /** A worker that renews in time is never disturbed: whatever other instances persist, claim, renew, sweep or clean
      up, in the end it still holds the lease and the message is as it was. */
  lemma {:induction false} LiveWorkerUndisturbed(s: Store, es: seq<Event>, ttl: nat, id: Id, w: Worker, m: Message, left: int)
    requires WorksOn(s, id, w, m, left) && 0 < ttl
    requires LeftToWorkers(es, id) && RenewsInTime(es, id, w, left, ttl)
    ensures Holds(After(s, es, ttl), id, w)
    ensures id in After(s, es, ttl).messages && After(s, es, ttl).messages[id] == m
    decreases |es|
  {
    if es != [] {
      var e := es[0];
      LeftInTail(es, id);
      OneCallWhileWorking(s, e, ttl, id, w, m, left);
      LiveWorkerUndisturbed(Apply(s, e, ttl), es[1..], ttl, id, w, m,
                            if e.TickE? then left - e.ms else if IsRenewal(e, id, w) then ttl else left);
    }
  }

  // ---------- Workers that crash ----------

  /** A message that no worker has acknowledged, completed or failed yet. */
  predicate Unsettled(m: Message) {
    && !m.acknowledged && !m.status.Completed? && AttemptsBounded(m)
    && (m.status.Processing? ==> m.attempts >= 1)
    && (m.status.Failed? ==> m.attempts == Cap(m))
  }

  /** The hand-outs whose worker is known to have crashed. */
  function CrashedAttempts(m: Message): int { m.attempts - if m.status.Processing? then 1 else 0 }

  lemma UnsettledStep(s: Store, e: Event, ttl: nat, id: Id)
    requires id in s.messages && Unsettled(s.messages[id]) && !Settles(e, id)
    ensures id in Apply(s, e, ttl).messages && Unsettled(Apply(s, e, ttl).messages[id])
    ensures Cap(Apply(s, e, ttl).messages[id]) == Cap(s.messages[id])
    ensures CrashedAttempts(Apply(s, e, ttl).messages[id]) ==
      CrashedAttempts(s.messages[id]) + if Requeues(s, e, id) then 1 else 0
  {
    OneCall(s, e, ttl, id);
  }

  lemma {:induction false} UnsettledRun(s: Store, es: seq<Event>, ttl: nat, id: Id)
    requires id in s.messages && Unsettled(s.messages[id]) && LeftToWorkers(es, id)
    ensures id in After(s, es, ttl).messages
    ensures
      var m, m' := s.messages[id], After(s, es, ttl).messages[id];
      Unsettled(m') && Cap(m') == Cap(m) && CrashedAttempts(m') == CrashedAttempts(m) + Recoveries(s, es, ttl, id)
    decreases |es|
  {
    if es != [] {
      LeftInTail(es, id);
      UnsettledStep(s, es[0], ttl, id);
      UnsettledRun(Apply(s, es[0], ttl), es[1..], ttl, id);
    }
  }

  lemma UnsettledStaysPersisted(es: seq<Event>, id: Id)
    requires LeftToWorkers(es, id)
    ensures !PersistsAgain(es, id)
  {
  }

  /** In every run in which nobody acknowledges, completes, fails, retries or persists a message again, with any workers,
      pauses, renewals and sweeps: it has failed exactly when as many of its hand-outs were recovered as it had
      attempts left, and then it was handed out exactly that often. */
  lemma CrashesExhaustMessage(s: Store, es: seq<Event>, ttl: nat, id: Id)
    requires id in s.messages && LeftToWorkers(es, id)
    requires s.messages[id].status.Pending? && !s.messages[id].acknowledged && AttemptsBounded(s.messages[id])
    ensures id in After(s, es, ttl).messages
    ensures
      var left, m' := Cap(s.messages[id]) - s.messages[id].attempts, After(s, es, ttl).messages[id];
      && (m'.status.Failed? <==> Recoveries(s, es, ttl, id) == left)
      && (m'.status.Pending? <==> Recoveries(s, es, ttl, id) == HandOuts(s, es, ttl, id) < left)
      && (m'.status.Failed? ==> HandOuts(s, es, ttl, id) == left)
  {
    UnsettledRun(s, es, ttl, id);
    UnsettledStaysPersisted(es, id);
    AttemptsCountHandOuts(s, es, ttl, id);
  }

  /** The shortest such runs: a worker claims and crashes, its lease runs out, a sweep follows, and so on. */
  function CrashRounds(id: Id, w: Worker, ttl: nat, n: nat): seq<Event> {
    if n == 0 then [] else [ClaimE(id, w), TickE(ttl), SweepE] + CrashRounds(id, w, ttl, n - 1)
  }

  lemma OneCrashRound(s: Store, id: Id, w: Worker, ttl: nat, more: seq<Event>)
    requires Claimable(s, id) && !s.messages[id].acknowledged
    ensures
      var s' := Sweep(Apply(Claim(s, id, w, ttl), TickE(ttl), ttl));
      var es := [ClaimE(id, w), TickE(ttl), SweepE] + more;
      && After(s, es, ttl) == After(s', more, ttl)
      && id in s'.messages && !Live(s', id) && !s'.messages[id].acknowledged
      && s'.messages[id] == Requeued(s.messages[id].(attempts := s.messages[id].attempts + 1, status := Processing))
  {
    var es := [ClaimE(id, w), TickE(ttl), SweepE] + more;
    var s1 := Claim(s, id, w, ttl);
    var s2 := Apply(s1, TickE(ttl), ttl);
    assert Orphan(s2, id);
    assert es[3..] == more;
    CrashRoundUnfolds(s, s1, s2, es, ttl);
  }

  lemma CrashRoundUnfolds(s: Store, s1: Store, s2: Store, es: seq<Event>, ttl: nat)
    requires |es| >= 3 && es[0].ClaimE? && es[1].TickE? && es[2].SweepE?
    requires s1 == Apply(s, es[0], ttl) && s2 == Apply(s1, es[1], ttl)
    ensures After(s, es, ttl) == After(Sweep(s2), es[3..], ttl)
  {
    FirstCall(s, es, ttl);
    FirstCall(s1, es[1..], ttl);
    assert es[1..][1..] == es[2..] && es[2..][1..] == es[3..];
    FirstCall(s2, es[2..], ttl);
  }

  lemma FirstCall(s: Store, es: seq<Event>, ttl: nat)
    requires es != []
    ensures After(s, es, ttl) == After(Apply(s, es[0], ttl), es[1..], ttl)
  {
  }

  /** So a never-acknowledged message whose every worker crashes does end in failed. */
  lemma {:induction false} CrashRoundsFail(s: Store, id: Id, w: Worker, ttl: nat)
    requires Claimable(s, id) && !s.messages[id].acknowledged && AttemptsBounded(s.messages[id])
    ensures
      var es := CrashRounds(id, w, ttl, Cap(s.messages[id]) - s.messages[id].attempts);
      id in After(s, es, ttl).messages && After(s, es, ttl).messages[id].status.Failed?
    decreases Cap(s.messages[id]) - s.messages[id].attempts
  {
    var n := Cap(s.messages[id]) - s.messages[id].attempts;
    var es := CrashRounds(id, w, ttl, n);
    OneCrashRound(s, id, w, ttl, CrashRounds(id, w, ttl, n - 1));
    if n > 1 {
      CrashRoundsFail(Sweep(Apply(Claim(s, id, w, ttl), TickE(ttl), ttl)), id, w, ttl);
    }
  }

  // ---------- Settled messages ----------

  /** Nobody fails, retries or persists the message again. */
  predicate LeftCompleted(es: seq<Event>, id: Id) {
    forall i :: 0 <= i < |es| ==> !((es[i].FailE? || es[i].RetryE? || es[i].PersistE?) && es[i].id == id)
  }

  /** A completed message is never handed out or recovered again, and stays completed while it is stored. */
  lemma {:induction false} CompletedIsDone(s: Store, es: seq<Event>, ttl: nat, id: Id)
    requires id in s.messages ==> s.messages[id].status.Completed?
    requires LeftCompleted(es, id)
    ensures HandOuts(s, es, ttl, id) == 0 && Recoveries(s, es, ttl, id) == 0
    ensures id in After(s, es, ttl).messages ==> After(s, es, ttl).messages[id].status.Completed?
    decreases |es|
  {
    if es != [] {
      var rest := es[1..];
      forall i | 0 <= i < |rest| ensures !((rest[i].FailE? || rest[i].RetryE? || rest[i].PersistE?) && rest[i].id == id) {
        assert rest[i] == es[i + 1];
      }
      assert !((es[0].FailE? || es[0].RetryE? || es[0].PersistE?) && es[0].id == id);
      CompletedIsDone(Apply(s, es[0], ttl), rest, ttl, id);
    }
  }

  /** The time that passes in a run. */
  function Elapsed(es: seq<Event>): nat {
    if es == [] then 0 else (if es[0].TickE? then es[0].ms else 0) + Elapsed(es[1..])
  }

  lemma {:induction false} TimePasses(s: Store, es: seq<Event>, ttl: nat)
    ensures After(s, es, ttl).now == s.now + Elapsed(es)
    decreases |es|
  {
    if es != [] {
      TimePasses(Apply(s, es[0], ttl), es[1..], ttl);
    }
  }

  /** Completed at time `at`. */
  predicate CompletedAt(s: Store, id: Id, at: int) {
    id in s.messages && s.messages[id].status.Completed? && s.messages[id].completedAt == Some(at)
  }

  lemma {:induction false} CompletionTimeStays(s: Store, es: seq<Event>, ttl: nat, id: Id, at: int)
    requires CompletedAt(s, id, at) && LeftToWorkers(es, id)
    requires forall i :: 0 <= i < |es| ==> !es[i].CleanupE?
    ensures CompletedAt(After(s, es, ttl), id, at)
    decreases |es|
  {
    if es != [] {
      LeftInTail(es, id);
      var rest := es[1..];
      forall i | 0 <= i < |rest| ensures !rest[i].CleanupE? {
        assert rest[i] == es[i + 1];
      }
      CompletionTimeStays(Apply(s, es[0], ttl), rest, ttl, id, at);
    }
  }

  /** A completed message is removed by a cleanup exactly when more time than the age limit has passed since. */
  lemma CleanupRemovesIff(s: Store, es: seq<Event>, ttl: nat, id: Id, maxAge: int)
    requires id in s.messages && LeftToWorkers(es, id)
    requires forall i :: 0 <= i < |es| ==> !es[i].CleanupE?
    ensures
      var before := After(Apply(s, CompleteE(id), ttl), es, ttl);
      id in before.messages && (id !in Apply(before, CleanupE(maxAge), ttl).messages <==> Elapsed(es) > maxAge)
  {
    var done := Apply(s, CompleteE(id), ttl);
    CompletionTimeStays(done, es, ttl, id, s.now);
    TimePasses(done, es, ttl);
  }

  predicate NotCompleted(s: Store, id: Id) { id in s.messages && !s.messages[id].status.Completed? }

  lemma {:induction false} UncompletedStays(s: Store, es: seq<Event>, ttl: nat, id: Id)
    requires NotCompleted(s, id)
    requires forall i :: 0 <= i < |es| ==> !((es[i].CompleteE? || es[i].PersistE?) && es[i].id == id)
    ensures NotCompleted(After(s, es, ttl), id)
    decreases |es|
  {
    if es != [] {
      var rest := es[1..];
      forall i | 0 <= i < |rest| ensures !((rest[i].CompleteE? || rest[i].PersistE?) && rest[i].id == id) {
        assert rest[i] == es[i + 1];
      }
      assert !((es[0].CompleteE? || es[0].PersistE?) && es[0].id == id);
      UncompletedStays(Apply(s, es[0], ttl), rest, ttl, id);
    }
  }

  /** A message marked as failed is kept, for manual intervention, as long as nobody completes or persists it again. */
  lemma FailedIsKept(s: Store, es: seq<Event>, ttl: nat, id: Id)
    requires id in s.messages
    requires forall i :: 0 <= i < |es| ==> !((es[i].CompleteE? || es[i].PersistE?) && es[i].id == id)
    ensures id in After(Apply(s, FailE(id), ttl), es, ttl).messages
    ensures !After(Apply(s, FailE(id), ttl), es, ttl).messages[id].status.Completed?
  {
    UncompletedStays(Apply(s, FailE(id), ttl), es, ttl, id);
  }

  /** A newly persisted message can be claimed at once, and the claim starts a worker on a lease of full length. */
  lemma PersistedIsClaimed(s: Store, id: Id, queue: Queue, data: string, maxAttempts: int, w: Worker, ttl: nat)
    requires !Live(s, id) && ttl > 0
    ensures Claimable(Persist(s, id, queue, data, maxAttempts), id)
    ensures WorksOn(Claim(Persist(s, id, queue, data, maxAttempts), id, w, ttl), id, w,
                    Message(queue, data, Processing, 1, maxAttempts, false, None), ttl)
  {
  }

  // ---------- Acknowledgement outlives a retry ----------

  predicate Concerns(e: Event, id: Id) {
    (e.PersistE? || e.CompleteE? || e.FailE? || e.RetryE?) && e.id == id
  }

  /** An acknowledged message in processing is out of reach of every sweep and every claim, lease or no lease;
      only an explicit complete, fail, retry or re-persist can move it. */
  lemma {:induction false} AcknowledgedIsNeverRecovered(s: Store, es: seq<Event>, ttl: nat, id: Id)
    requires id in s.messages && s.messages[id].status.Processing? && s.messages[id].acknowledged
    requires forall i :: 0 <= i < |es| ==> !Concerns(es[i], id)
    ensures id in After(s, es, ttl).messages && After(s, es, ttl).messages[id] == s.messages[id]
    decreases |es|
  {
    if es != [] {
      assert !Concerns(es[0], id);
      var rest := es[1..];
      forall i | 0 <= i < |rest| ensures !Concerns(rest[i], id) {
        assert rest[i] == es[i + 1];
      }
      AcknowledgedIsNeverRecovered(Apply(s, es[0], ttl), rest, ttl, id);
    }
  }

  /** The store holds `m` under `id`, and no live lease on it. */
  predicate Rests(s: Store, id: Id, m: Message) {
    id in s.messages && s.messages[id] == m && !Live(s, id)
  }

  /** Claimed, and then left alone until the lease is gone. */
  lemma ClaimAndCrash(s: Store, id: Id, m: Message, w: Worker, ttl: nat)
    requires Rests(s, id, m) && m.status.Pending?
    ensures Rests(Apply(Claim(s, id, w, ttl), TickE(ttl), ttl), id, m.(attempts := m.attempts + 1, status := Processing))
  {
  }

  lemma ClaimAcknowledgeFailRetry(s: Store, id: Id, m: Message, w: Worker, ttl: nat)
    requires Rests(s, id, m) && m.status.Pending? && m.attempts + 1 < m.maxAttempts
    ensures Rests(Retry(Fail(Acknowledge(Claim(s, id, w, ttl), id), id), id), id,
                  m.(attempts := m.attempts + 1, acknowledged := true))
  {
  }

  /** Such a message is reachable through the ordinary life cycle: nothing ever clears `acknowledgedAt`, so after
      acknowledge, fail, retry and a second claim whose worker crashes, no sweep brings the message back. */
  lemma AcknowledgedRetryIsStranded(s: Store, id: Id, m: Message, w: Worker, ttl: nat)
    requires Rests(s, id, m) && m.status.Pending? && m.attempts + 1 < m.maxAttempts
    ensures
      var es := [ClaimE(id, w), AcknowledgeE(id), FailE(id), RetryE(id), ClaimE(id, w), TickE(ttl), SweepE];
      Rests(After(s, es, ttl), id, m.(attempts := m.attempts + 2, status := Processing, acknowledged := true))
  {
    ClaimAcknowledgeFailRetry(s, id, m, w, ttl);
    var s1 := Claim(s, id, w, ttl);
    var s2 := Acknowledge(s1, id);
    var s3 := Fail(s2, id);
    var s4 := Retry(s3, id);
    var m4 := m.(attempts := m.attempts + 1, acknowledged := true);
    ClaimAndCrash(s4, id, m4, w, ttl);
    var s6 := Apply(Claim(s4, id, w, ttl), TickE(ttl), ttl);
    var e := [ClaimE(id, w), AcknowledgeE(id), FailE(id), RetryE(id), ClaimE(id, w), TickE(ttl), SweepE];
    SweepSkips(s6, id, s6.messages[id]);
    ReplayLast(s6, Sweep(s6), ttl, e, 6);
    ReplayStep(Claim(s4, id, w, ttl), s6, Sweep(s6), ttl, e, 5);
    ReplayStep(s4, Claim(s4, id, w, ttl), Sweep(s6), ttl, e, 4);
    ReplayStep(s3, s4, Sweep(s6), ttl, e, 3);
    ReplayStep(s2, s3, Sweep(s6), ttl, e, 2);
    ReplayStep(s1, s2, Sweep(s6), ttl, e, 1);
    ReplayStep(s, s1, Sweep(s6), ttl, e, 0);
    assert e[0..] == e;
  }

  lemma SweepSkips(s: Store, id: Id, m: Message)
    requires Rests(s, id, m) && m.acknowledged
    ensures Rests(Sweep(s), id, m)
  {
  }

  lemma ReplayLast(s: Store, t: Store, ttl: nat, e: seq<Event>, i: nat)
    requires i + 1 == |e| && t == Apply(s, e[i], ttl)
    ensures After(s, e[i..], ttl) == t
  {
    assert e[i..][1..] == [];
  }

  lemma ReplayStep(s: Store, s': Store, t: Store, ttl: nat, e: seq<Event>, i: nat)
    requires i + 1 < |e| && s' == Apply(s, e[i], ttl)
    requires After(s', e[i + 1..], ttl) == t
    ensures After(s, e[i..], ttl) == t
  {
    assert e[i..][1..] == e[i + 1..];
  }
}
