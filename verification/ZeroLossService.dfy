/** The zero-loss service as code over a shared Redis: every method is proved to be one call of the store model
    (src/queue/zero-loss-message.service.ts). Several service objects may share one `Redis`. */
module ZeroLossService {
  import opened Common
  import opened ZeroLoss

  // ---------- Sweeps and cleanups key by key ----------

  lemma SweepNone(s: Store)
    ensures SweepOver(s, {}) == s
  {
    assert SweepOver(s, {}).messages == s.messages;
    assert SweepOver(s, {}).leases == s.leases;
  }

  lemma SweepMovesOn(s: Store, ids: set<Id>, id: Id)
    ensures Orphan(SweepOver(s, ids), id) <==> Orphan(s, id) && id !in ids
    ensures RecoverOne(SweepOver(s, ids), id) == SweepOver(s, ids + {id})
  {
    var a, b := RecoverOne(SweepOver(s, ids), id), SweepOver(s, ids + {id});
    assert Orphan(SweepOver(s, ids), id) <==> Orphan(s, id) && id !in ids;
    assert a.messages == b.messages;
    assert a.leases == b.leases;
  }

  /** Visiting one more key, for the first time or again. */
  lemma SweepOneMore(s: Store, ids: set<Id>, id: Id)
    ensures RecoverOne(SweepOver(s, ids), id) == SweepOver(s, ids + {id})
    ensures |Orphans(s) * (ids + {id})| == |Orphans(s) * ids| + if Orphan(SweepOver(s, ids), id) then 1 else 0
  {
    SweepMovesOn(s, ids, id);
    CountOneMore(Orphans(s), ids, id);
  }

  lemma CountOneMore(all: set<Id>, ids: set<Id>, id: Id)
    ensures |all * (ids + {id})| == |all * ids| + if id in all && id !in ids then 1 else 0
  {
    if id in all && id !in ids {
      assert all * (ids + {id}) == all * ids + {id};
    } else {
      assert all * (ids + {id}) == all * ids;
    }
  }

  /** Keys that are not stored make no difference. */
  lemma SweepAll(s: Store, ids: set<Id>)
    requires s.messages.Keys <= ids
    ensures SweepOver(s, ids) == Sweep(s) && Orphans(s) * ids == Orphans(s)
  {
    assert SweepOver(s, ids).messages == Sweep(s).messages;
    assert Orphans(s) * ids == Orphans(s) == Orphans(s) * s.messages.Keys;
  }

  lemma CleanNone(s: Store, maxAge: int)
    ensures CleanOver(s, maxAge, {}) == s
  {
    assert StaleIds(s, maxAge) * {} == {};
    assert s.messages - {} == s.messages;
    forall q | q in s.queues ensures CleanOver(s, maxAge, {}).queues[q] == s.queues[q] {
      assert OfQueue(s, {}, q) == {};
    }
    assert CleanOver(s, maxAge, {}).queues == s.queues;
  }

  function RemoveOne(s: Store, id: Id): Store
    requires id in s.messages
  {
    var q := s.messages[id].queue;
    s.(messages := s.messages - {id},
       queues := if q in s.queues then s.queues[q := s.queues[q] - {id}] else s.queues)
  }

  /** Removing one more id from the index of one queue. */
  lemma PurgeOneMore(s: Store, gone: set<Id>, id: Id, q: Queue)
    requires id in s.messages && id !in gone
    ensures OfQueue(s, gone + {id}, q) == OfQueue(s, gone, q) + if s.messages[id].queue == q then {id} else {}
  {
  }

  lemma CleanRemoves(s: Store, maxAge: int, ids: set<Id>, id: Id)
    requires Stale(s, id, maxAge) && id !in ids
    ensures id in CleanOver(s, maxAge, ids).messages
    ensures CleanOver(s, maxAge, ids + {id}) == RemoveOne(CleanOver(s, maxAge, ids), id)
  {
    var gone := StaleIds(s, maxAge) * ids;
    var a, b := CleanOver(s, maxAge, ids), CleanOver(s, maxAge, ids + {id});
    assert StaleIds(s, maxAge) * (ids + {id}) == gone + {id};
    assert b.messages == a.messages - {id};
    forall q | q in s.queues ensures b.queues[q] == RemoveOne(a, id).queues[q] {
      PurgeOneMore(s, gone, id, q);
    }
    assert b.queues == RemoveOne(a, id).queues;
  }

  /** Visiting one more key, for the first time or again. */
  lemma CleanOneMore(s: Store, maxAge: int, ids: set<Id>, id: Id)
    ensures Stale(CleanOver(s, maxAge, ids), id, maxAge) <==> Stale(s, id, maxAge) && id !in ids
    ensures CleanOver(s, maxAge, ids + {id}) == CleanOne(CleanOver(s, maxAge, ids), maxAge, id)
    ensures |StaleIds(s, maxAge) * (ids + {id})| ==
      |StaleIds(s, maxAge) * ids| + if Stale(CleanOver(s, maxAge, ids), id, maxAge) then 1 else 0
  {
    CountOneMore(StaleIds(s, maxAge), ids, id);
    if Stale(s, id, maxAge) && id !in ids {
      CleanRemoves(s, maxAge, ids, id);
    } else {
      assert StaleIds(s, maxAge) * (ids + {id}) == StaleIds(s, maxAge) * ids;
    }
  }

  function CleanOne(s: Store, maxAge: int, id: Id): Store {
    if Stale(s, id, maxAge) then RemoveOne(s, id) else s
  }

  lemma CleanAll(s: Store, maxAge: int, ids: set<Id>)
    requires s.messages.Keys <= ids
    ensures CleanOver(s, maxAge, ids) == Cleanup(s, maxAge) && StaleIds(s, maxAge) * ids == StaleIds(s, maxAge)
  {
    assert StaleIds(s, maxAge) * ids == StaleIds(s, maxAge) == StaleIds(s, maxAge) * s.messages.Keys;
  }

  function Elements(ids: seq<Id>): set<Id> { set id | id in ids }

  lemma ElementsSnoc(ids: seq<Id>, i: nat)
    requires i < |ids|
    ensures Elements(ids[..i + 1]) == Elements(ids[..i]) + {ids[i]}
  {
    assert ids[..i + 1] == ids[..i] + [ids[i]];
  }

  function Flatten(pages: seq<seq<Id>>): seq<Id> {
    if pages == [] then [] else pages[0] + Flatten(pages[1..])
  }

  lemma {:induction false} FlattenSnoc(pages: seq<seq<Id>>, page: seq<Id>)
    ensures Flatten(pages + [page]) == Flatten(pages) + page
  {
    if pages == [] {
      assert Flatten([page][1..]) == [];
    } else {
      assert (pages + [page])[1..] == pages[1..] + [page];
      FlattenSnoc(pages[1..], page);
    }
  }

  /** The message is pending if it has attempts left and failed otherwise, and nobody holds a lease on it. */
  predicate Released(messages: map<Id, Message>, leases: map<Id, Lease>, id: Id) {
    && id in messages && id !in leases
    && if messages[id].attempts < messages[id].maxAttempts then messages[id].status.Pending? else messages[id].status.Failed?
  }

  /** The commands the service issues, each atomic. */
  class Redis {
    var messages: map<Id, Message>
    var queues: map<Queue, set<Id>>
    var leases: map<Id, Lease>
    var now: int

    constructor (now: int)
      ensures View() == Empty(now)
    {
      messages, queues, leases, this.now := map[], map[], map[], now;
    }

    ghost function View(): Store
      reads this
    {
      Store(messages, queues, leases, now)
    }

    /** SET key owner EX ttl NX. */
    method SetNx(id: Id, owner: Worker, ttl: nat) returns (claimed: bool)
      modifies this`leases
      ensures claimed <==> !old(Live(View(), id))
      ensures leases == if claimed then old(leases)[id := Lease(owner, now + ttl)] else old(leases)
    {
      claimed := !(id in leases && now < leases[id].until);
      if claimed {
        leases := leases[id := Lease(owner, now + ttl)];
      }
    }

    method Get(id: Id) returns (owner: Option<Worker>)
      ensures owner == if Live(View(), id) then Some(leases[id].owner) else None
    {
      owner := if id in leases && now < leases[id].until then Some(leases[id].owner) else None;
    }

    method Expire(id: Id, ttl: nat) returns (renewed: bool)
      modifies this`leases
      ensures renewed <==> old(Live(View(), id))
      ensures leases == if renewed then old(leases)[id := Lease(old(leases)[id].owner, now + ttl)] else old(leases)
    {
      renewed := id in leases && now < leases[id].until;
      if renewed {
        leases := leases[id := Lease(leases[id].owner, now + ttl)];
      }
    }

    method DelLease(id: Id)
      modifies this`leases
      ensures leases == old(leases) - {id}
    {
      leases := leases - {id};
    }

    method HGetAll(id: Id) returns (m: Option<Message>)
      ensures m == if id in messages then Some(messages[id]) else None
    {
      m := if id in messages then Some(messages[id]) else None;
    }

    method HSet(id: Id, m: Message)
      modifies this`messages
      ensures messages == old(messages)[id := m]
    {
      messages := messages[id := m];
    }

    method Del(id: Id)
      modifies this`messages
      ensures messages == old(messages) - {id}
    {
      messages := messages - {id};
    }

    method SAdd(q: Queue, id: Id)
      modifies this`queues
      ensures queues == old(queues)[q := old(QueueIds(View(), q)) + {id}]
    {
      queues := queues[q := (if q in queues then queues[q] else {}) + {id}];
    }

    method SRem(q: Queue, id: Id)
      modifies this`queues
      ensures queues == if q in old(queues) then old(queues)[q := old(queues)[q] - {id}] else old(queues)
    {
      if q in queues {
        queues := queues[q := queues[q] - {id}];
      }
    }
  }

  class ZeroLossMessageService {
    const redis: Redis
    const instanceId: Worker
    const ttl: nat

    constructor (redis: Redis, instanceId: Worker, ttl: nat)
      ensures this.redis == redis && this.instanceId == instanceId && this.ttl == ttl
    {
      this.redis, this.instanceId, this.ttl := redis, instanceId, ttl;
    }

    method PersistMessage(id: Id, queue: Queue, data: string, maxAttempts: int)
      modifies redis
      ensures redis.View() == Persist(old(redis.View()), id, queue, data, maxAttempts)
      ensures redis.messages == old(redis.messages)[id := Message(queue, data, Pending, 0, maxAttempts, false, None)]
      ensures queue in redis.queues && id in redis.queues[queue] && redis.leases == old(redis.leases)
    {
      var message := Message(queue, data, Pending, 0, maxAttempts, false, None);
      redis.HSet(id, message);
      redis.SAdd(queue, id);
    }

    method MarkProcessing(id: Id) returns (claimed: bool)
      modifies redis
      ensures redis.View() == Claim(old(redis.View()), id, instanceId, ttl)
      ensures claimed <==> Claimable(old(redis.View()), id)
      ensures claimed ==> Holds(redis.View(), id, instanceId) || ttl == 0
      ensures claimed ==>
        var m := old(redis.messages)[id];
        redis.messages == old(redis.messages)[id := m.(status := Processing, attempts := m.attempts + 1)]
      ensures !claimed ==> redis.messages == old(redis.messages)
    {
      var taken := redis.SetNx(id, instanceId, ttl);
      if !taken {
        return false;
      }
      var m := redis.HGetAll(id);
      if m.None? || !m.value.status.Pending? {
        redis.DelLease(id);
        assert redis.leases == old(redis.leases) - {id};
        return false;
      }
      var counted := m.value.(attempts := m.value.attempts + 1);
      redis.HSet(id, counted);
      redis.HSet(id, counted.(status := Processing));
      claimed := true;
    }

    method RenewProcessingLease(id: Id) returns (renewed: bool)
      modifies redis
      ensures redis.View() == Renew(old(redis.View()), id, instanceId, ttl)
      ensures renewed <==> Holds(old(redis.View()), id, instanceId)
    {
      var owner := redis.Get(id);
      if owner != Some(instanceId) {
        return false;
      }
      renewed := redis.Expire(id, ttl);
    }

    method AcknowledgeMessage(id: Id) returns (found: bool)
      modifies redis
      ensures redis.View() == Acknowledge(old(redis.View()), id)
      ensures found <==> id in old(redis.messages)
      ensures found ==> redis.messages == old(redis.messages)[id := old(redis.messages)[id].(acknowledged := true)]
      ensures found ==> id !in redis.leases
    {
      var m := redis.HGetAll(id);
      if m.None? {
        return false;
      }
      redis.HSet(id, m.value.(acknowledged := true));
      redis.DelLease(id);
      found := true;
    }

    method MarkCompleted(id: Id) returns (found: bool)
      modifies redis
      ensures redis.View() == Complete(old(redis.View()), id)
      ensures found <==> id in old(redis.messages)
      ensures found ==> id in redis.messages && redis.messages[id].status.Completed?
      ensures found ==> redis.messages[id].completedAt == Some(redis.now) && id !in redis.leases
    {
      var m := redis.HGetAll(id);
      if m.None? {
        return false;
      }
      redis.HSet(id, m.value.(status := Completed, completedAt := Some(redis.now)));
      redis.DelLease(id);
      found := true;
    }

    method MarkFailed(id: Id) returns (found: bool)
      modifies redis
      ensures redis.View() == Fail(old(redis.View()), id)
      ensures found <==> id in old(redis.messages)
      ensures found ==> id in redis.messages && redis.messages[id].status.Failed? && id !in redis.leases
    {
      var m := redis.HGetAll(id);
      if m.None? {
        return false;
      }
      redis.HSet(id, m.value.(status := Failed));
      redis.DelLease(id);
      found := true;
    }

    method RetryMessage(id: Id) returns (retried: bool)
      modifies redis
      ensures redis.View() == Retry(old(redis.View()), id)
      ensures retried <==> Retryable(old(redis.View()), id)
      ensures retried <==> id in old(redis.messages) && old(redis.messages)[id].attempts < old(redis.messages)[id].maxAttempts
      ensures retried ==> id in redis.messages && redis.messages[id].status.Pending? && id !in redis.leases
      ensures !retried ==> redis.messages == old(redis.messages) && redis.leases == old(redis.leases)
    {
      var m := redis.HGetAll(id);
      var attempts: int := if m.Some? then m.value.attempts else 0;
      var maxAttempts := if m.Some? then m.value.maxAttempts else 0;
      if attempts == 0 && maxAttempts == 0 {
        return false;
      }
      if attempts >= maxAttempts {
        return false;
      }
      redis.HSet(id, m.value.(status := Pending));
      redis.DelLease(id);
      retried := true;
    }

    method RecoverMessage(id: Id) returns (recovered: bool)
      modifies redis
      ensures redis.View() == RecoverOne(old(redis.View()), id)
      ensures recovered <==> Orphan(old(redis.View()), id)
      ensures recovered ==> Released(redis.messages, redis.leases, id)
    {
      var message := redis.HGetAll(id);
      if message.None? || !message.value.status.Processing? || message.value.acknowledged {
        return false;
      }
      var leaseOwner := redis.Get(id);
      if leaseOwner.Some? {
        return false;
      }
      var claimed := redis.SetNx(id, instanceId + ":recovery", ttl);
      if !claimed {
        return false;
      }
      var current := redis.HGetAll(id);
      recovered := current.Some? && current.value.status.Processing? && !current.value.acknowledged;
      if recovered {
        if current.value.attempts < current.value.maxAttempts {
          redis.HSet(id, current.value.(status := Pending));
        } else {
          redis.HSet(id, current.value.(status := Failed));
        }
      }
      redis.DelLease(id);
      assert redis.leases == old(redis.leases) - {id};
    }

    /** SCAN hands out the keys page by page until the cursor returns to zero, and may repeat a key. */
    method ScanKeys(pages: seq<seq<Id>>) returns (keys: seq<Id>)
      ensures keys == Flatten(pages)
    {
      keys := [];
      var cursor := 0;
      while cursor < |pages|
        invariant 0 <= cursor <= |pages|
        invariant keys == Flatten(pages[..cursor])
      {
        assert pages[..cursor + 1] == pages[..cursor] + [pages[cursor]];
        FlattenSnoc(pages[..cursor], pages[cursor]);
        keys := keys + pages[cursor];
        cursor := cursor + 1;
      }
      assert pages[..cursor] == pages;
    }

    /** One sweep. The pages must together contain every stored id; they may repeat ids and contain others. */
    method RecoverOrphanedMessages(pages: seq<seq<Id>>) returns (count: nat)
      requires redis.messages.Keys <= Elements(Flatten(pages))
      modifies redis
      ensures redis.View() == Sweep(old(redis.View()))
      ensures count == |Orphans(old(redis.View()))|
    {
      ghost var s := redis.View();
      var keys := ScanKeys(pages);
      var i := 0;
      count := 0;
      ghost var seen: set<Id> := {};
      SweepNone(s);
      while i < |keys|
        invariant 0 <= i <= |keys| && seen == Elements(keys[..i])
        invariant redis.View() == SweepOver(s, seen)
        invariant count == |Orphans(s) * seen|
      {
        ElementsSnoc(keys, i);
        SweepOneMore(s, seen, keys[i]);
        var recovered := RecoverMessage(keys[i]);
        if recovered {
          count := count + 1;
        }
        seen := seen + {keys[i]};
        i := i + 1;
      }
      assert keys[..i] == keys;
      SweepAll(s, seen);
    }

    method CleanupMessage(maxAge: int, id: Id) returns (removed: bool)
      modifies redis
      ensures redis.View() == CleanOne(old(redis.View()), maxAge, id)
      ensures removed <==> Stale(old(redis.View()), id, maxAge)
    {
      removed := false;
      var message := redis.HGetAll(id);
      if message.Some? && message.value.status.Completed? && message.value.completedAt.Some?
         && message.value.completedAt.value < redis.now - maxAge {
        redis.Del(id);
        redis.SRem(message.value.queue, id);
        removed := true;
      }
    }

    /** Removes completed messages older than `maxAge`, with the same freedom for SCAN. */
    method CleanupCompletedMessages(maxAge: int, pages: seq<seq<Id>>) returns (cleaned: nat)
      requires redis.messages.Keys <= Elements(Flatten(pages))
      modifies redis
      ensures redis.View() == Cleanup(old(redis.View()), maxAge)
      ensures cleaned == |StaleIds(old(redis.View()), maxAge)|
    {
      ghost var s := redis.View();
      var keys := ScanKeys(pages);
      var i := 0;
      cleaned := 0;
      ghost var seen: set<Id> := {};
      CleanNone(s, maxAge);
      while i < |keys|
        invariant 0 <= i <= |keys| && seen == Elements(keys[..i])
        invariant redis.View() == CleanOver(s, maxAge, seen)
        invariant cleaned == |StaleIds(s, maxAge) * seen|
      {
        var id := keys[i];
        ElementsSnoc(keys, i);
        CleanOneMore(s, maxAge, seen, id);
        var removed := CleanupMessage(maxAge, id);
        if removed {
          cleaned := cleaned + 1;
        }
        seen := seen + {id};
        i := i + 1;
      }
      assert keys[..i] == keys;
      CleanAll(s, maxAge, seen);
    }
  }
}
