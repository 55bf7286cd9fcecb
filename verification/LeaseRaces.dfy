/** What goes wrong in the lease protocol, and exactly when (src/queue/zero-loss-message.service.ts): deletes that let a
    message go to two workers, claims that crash after counting, and renewals that extend somebody else's lease. */
module LeaseRaces {
  import opened Common
  import ZeroLoss
  import opened ZeroLossCommands

  // ---------- Two workers on one message ----------

  /** A command of a retry, or the delete of a finish after an acknowledgement. */
  predicate Intrudes(c: Cell, l: Label) { RetryStep(c, l) || BlindDelete(c, l) }

  /** The steps `ls`, none of them such a command, end with a hand-out while another worker is running. */
  ghost predicate Overlaps(c: Cell, ls: seq<Label>)
    decreases |ls|
  {
    && ls != [] && Enabled(c, ls[0]) && !Intrudes(c, ls[0])
    && (HandsOutTwice(c, ls[0]) || Overlaps(Next(c, ls[0]), ls[1..]))
  }

  /** Without any further such command the message can go to a second worker while the first is running. */
  ghost predicate CanOverlap(c: Cell) {
    exists ls :: Overlaps(c, ls)
  }

  /** A recovery would put the message up again. */
  predicate Requeueable(c: Cell) { c.status.Processing? && !c.acknowledged && c.attempts < c.maxAttempts }

  /** The message is up for a claim, or a recovery can put it up. */
  predicate Offerable(c: Cell) { c.status.Pending? || Requeueable(c) }

  /** A blind delete takes the lease of an active operation, other than a recovery that is about to fail the message,
      while the message is or can be offered. */
  predicate Endangers(c: Cell, l: Label) {
    Deprives(c, l) && Offerable(c) && c.ops[c.lease.value] != RecWrite(false)
  }

  lemma CanOverlapLater(c: Cell, l: Label)
    requires Enabled(c, l) && !Intrudes(c, l) && CanOverlap(Next(c, l))
    ensures CanOverlap(c)
  {
    var ls :| Overlaps(Next(c, l), ls);
    assert ([l] + ls)[1..] == ls;
    assert Overlaps(c, [l] + ls);
  }

  // ---------- Towards an overlap ----------

  /** A claim that has read "pending" and will mark the message whatever happens. */
  predicate Decided(p: Phase) { p.ClaimIncr? || p.ClaimMax? || p.ClaimMark? }

  function StepsToMark(p: Phase): nat { if p.ClaimIncr? then 2 else if p.ClaimMax? then 1 else 0 }

  lemma {:induction false} DecidedOverlaps(c: Cell, x: OpId, w: OpId)
    requires x in c.ops && Decided(c.ops[x]) && w != x && Running(c, w)
    ensures CanOverlap(c)
    decreases StepsToMark(c.ops[x])
  {
    if c.ops[x].ClaimMark? {
      assert Overlaps(c, [Do(x)]);
    } else {
      DecidedOverlaps(Next(c, Do(x)), x, w);
      CanOverlapLater(c, Do(x));
    }
  }

  lemma {:induction false} TwoDecidedOverlap(c: Cell, x: OpId, y: OpId)
    requires x != y && x in c.ops && y in c.ops && Decided(c.ops[x]) && Decided(c.ops[y]) && x !in c.expired
    ensures CanOverlap(c)
    decreases StepsToMark(c.ops[x])
  {
    var c' := Next(c, Do(x));
    if c.ops[x].ClaimMark? {
      DecidedOverlaps(c', y, x);
    } else {
      TwoDecidedOverlap(c', x, y);
    }
    CanOverlapLater(c, Do(x));
  }

  lemma {:induction false} Unused(s: set<OpId>) returns (n: OpId)
    ensures forall x :: x in s ==> x < n
  {
    if s == {} {
      n := 0;
    } else {
      var x :| x in s;
      var m := Unused(s - {x});
      n := if m > x then m else x + 1;
      assert forall y :: y in s ==> y == x || y in s - {x};
    }
  }

  /** A new claim takes the free lease and reads "pending". */
  function AfterClaim(c: Cell, n: OpId): Cell { c.(lease := Some(n), ops := c.ops[n := ClaimIncr]) }

  lemma NewClaim(c: Cell, n: OpId)
    requires c.lease.None? && c.status.Pending? && n !in c.ops && CanOverlap(AfterClaim(c, n))
    ensures CanOverlap(c)
  {
    var c1 := Next(c, Start(n, ClaimOp));
    var c2 := Next(c1, Do(n));
    assert Next(c2, Do(n)) == AfterClaim(c, n) by {
      assert c.ops[n := ClaimSet][n := ClaimStatus][n := ClaimIncr] == c.ops[n := ClaimIncr];
    }
    CanOverlapLater(c2, Do(n));
    CanOverlapLater(c1, Do(n));
    CanOverlapLater(c, Start(n, ClaimOp));
  }

  // ---------- An operation that lost its lease while it was active ----------

  /** A worker that goes on running meets the next claim. */
  lemma StrayWorker(c: Cell, w: OpId)
    requires c.lease.None? && c.status.Pending? && Running(c, w)
    ensures CanOverlap(c)
  {
    var n := Unused(c.ops.Keys);
    DecidedOverlaps(AfterClaim(c, n), n, w);
    NewClaim(c, n);
  }

  lemma StrayClaim(c: Cell, x: OpId)
    requires c.lease.None? && c.status.Pending? && x in c.ops && Decided(c.ops[x]) && x !in c.expired
    ensures CanOverlap(c)
  {
    var n := Unused(c.ops.Keys);
    TwoDecidedOverlap(AfterClaim(c, n), x, n);
    NewClaim(c, n);
  }

  /** A stray DEL takes the lease of a new claim, and a second new claim gets in. */
  lemma StrayDelete(c: Cell, x: OpId)
    requires c.lease.None? && c.status.Pending? && x in c.ops && (c.ops[x].ClaimRelease? || c.ops[x].RecDel?)
    ensures CanOverlap(c)
  {
    var n := Unused(c.ops.Keys + c.expired);
    var c1 := AfterClaim(c, n);
    var c2 := Next(c1, Do(x));
    StrayClaim(c2, n);
    CanOverlapLater(c1, Do(x));
    NewClaim(c, n);
  }

  lemma StrayOnPending(c: Cell, x: OpId)
    requires c.lease.None? && c.status.Pending? && Active(c, x) && !c.ops[x].RecWrite?
    ensures CanOverlap(c)
  {
    var p := c.ops[x];
    if Running(c, x) {
      StrayWorker(c, x);
    } else if Decided(p) {
      StrayClaim(c, x);
    } else if p.ClaimRelease? || p.RecDel? {
      StrayDelete(c, x);
    } else if p.ClaimStatus? {
      StrayClaim(Next(c, Do(x)), x);
      CanOverlapLater(c, Do(x));
    } else {
      StrayDelete(Next(c, Do(x)), x);
      CanOverlapLater(c, Do(x));
    }
  }

  /** A new recovery takes the free lease and decides to requeue. */
  function AfterRecovery(c: Cell, r: OpId): Cell { c.(lease := Some(r), ops := c.ops[r := RecWrite(true)]) }

  lemma NewRecovery(c: Cell, r: OpId)
    requires c.lease.None? && Requeueable(c) && r !in c.ops && CanOverlap(AfterRecovery(c, r))
    ensures CanOverlap(c)
  {
    var c1 := Goto(c, r, RecRead);
    var c2 := Goto(c, r, RecLease);
    var c3 := Goto(c, r, RecSet);
    var c4 := Goto(c.(lease := Some(r)), r, RecRecheck);
    RecoveryStep(c, c4, AfterRecovery(c, r), r, RecRecheck, RecWrite(true));
    RecoveryStep(c, c3, c4, r, RecSet, RecRecheck);
    RecoveryStep(c, c2, c3, r, RecLease, RecSet);
    RecoveryStep(c, c1, c2, r, RecRead, RecLease);
    CanOverlapLater(c, Start(r, RecoverOp));
  }

  lemma RecoveryStep(c: Cell, now: Cell, soon: Cell, r: OpId, p: Phase, q: Phase)
    requires IsRecovery(p) && now.ops == c.ops[r := p] && soon.ops == c.ops[r := q]
    requires RecoveryCommand(now, r) == soon.(ops := now.ops[r := q]) && CanOverlap(soon)
    ensures CanOverlap(now)
  {
    assert now.ops[r := q] == soon.ops;
    CanOverlapLater(now, Do(r));
  }

  /** A recovery first makes the message pending, while the stray operation waits. */
  lemma StrayBystander(c: Cell, x: OpId)
    requires c.lease.None? && Requeueable(c) && Active(c, x) && !c.ops[x].RecWrite?
    ensures CanOverlap(c)
  {
    var r := Unused(c.ops.Keys);
    var c1 := AfterRecovery(c, r);
    var c2 := Next(c1, Do(r));
    var c3 := Next(c2, Do(r));
    StrayOnPending(c3, x);
    CanOverlapLater(c2, Do(r));
    CanOverlapLater(c1, Do(r));
    NewRecovery(c, r);
  }

  lemma StrayRequeue(c: Cell, x: OpId)
    requires c.lease.None? && x in c.ops && c.ops[x] == RecWrite(true)
    ensures CanOverlap(c)
  {
    StrayDelete(Next(c, Do(x)), x);
    CanOverlapLater(c, Do(x));
  }

  lemma EndangeredOverlaps(c: Cell, l: Label)
    requires Owned(c) && Enabled(c, l) && Endangers(c, l)
    ensures CanOverlap(Next(c, l))
  {
    var c', x := Next(c, l), c.lease.value;
    assert c'.ops[x] == c.ops[x] && Active(c', x);
    if c.ops[x].RecWrite? {
      StrayRequeue(c', x);
    } else if c.status.Pending? {
      StrayOnPending(c', x);
    } else {
      StrayBystander(c', x);
    }
  }

  // ---------- States from which nothing goes wrong ----------

  predicate Inert(p: Phase) { !Decided(p) && p != RecWrite(true) }

  /** Nothing but a retry will make the message pending again, and no claim has decided to mark it. */
  ghost predicate Dead(c: Cell) {
    !Offerable(c) && forall op :: op in c.ops ==> Inert(c.ops[op])
  }

  /** No recovery will ever put the message up again. */
  predicate Unrequeueable(c: Cell) { c.acknowledged || c.attempts >= c.maxAttempts }

  ghost predicate NoRequeue(c: Cell) {
    Unrequeueable(c) && forall op :: op in c.ops ==> c.ops[op] != RecWrite(true)
  }

  predicate Candidate(c: Cell, op: OpId) { op in c.ops && (Decided(c.ops[op]) || Running(c, op)) }

  /** The message is not offered and will not be, and at most one claim has it or has decided to take it. */
  ghost predicate Closed(c: Cell) {
    && NoRequeue(c) && !c.status.Pending?
    && forall a: OpId, b: OpId :: Candidate(c, a) && Candidate(c, b) ==> a == b
  }

  /** Recovery `x` has lost its lease and will fail the message; everybody else who is active holds the lease. */
  ghost predicate Guarded(c: Cell, x: OpId) {
    && Owned(c) && NoRequeue(c) && x in c.ops && c.ops[x] == RecWrite(false) && c.lease != Some(x)
    && forall op: OpId :: op != x && Active(c, op) ==> c.lease == Some(op)
  }

  ghost predicate Safe(c: Cell) {
    (Owned(c) && Held(c)) || Dead(c) || Closed(c) || exists x :: Guarded(c, x)
  }

  /** What a command that is not a retry's can do to phases and message. */
  predicate QuietEffect(c: Cell, op: OpId, c': Cell)
    requires op in c.ops
  {
    var p := c.ops[op];
    && op in c'.ops && c'.ops == c.ops[op := c'.ops[op]] && c'.expired == c.expired && c'.maxAttempts == c.maxAttempts
    && c'.attempts >= c.attempts && (c.acknowledged ==> c'.acknowledged)
    && (Decided(c'.ops[op]) ==> Decided(p) || c.status.Pending?)
    && (c'.ops[op] == RecWrite(true) ==> Requeueable(c))
    && (c'.ops[op].Working? || IsFinish(c'.ops[op]) ==> Decided(p) || IsFinish(p))
    && (c'.status.Pending? ==> c.status.Pending? || p == RecWrite(true))
    && (c'.status.Processing? ==> c.status.Processing? || Decided(p))
  }

  lemma ClaimIsQuiet(c: Cell, op: OpId)
    requires op in c.ops && IsClaim(c.ops[op])
    ensures QuietEffect(c, op, ClaimCommand(c, op))
  {
  }

  lemma RecoveryIsQuiet(c: Cell, op: OpId)
    requires op in c.ops && IsRecovery(c.ops[op])
    ensures QuietEffect(c, op, RecoveryCommand(c, op))
  {
  }

  lemma FinishIsQuiet(c: Cell, op: OpId)
    requires op in c.ops
    ensures IsFinish(c.ops[op]) ==> QuietEffect(c, op, FinishCommand(c, op))
    ensures IsLate(c.ops[op]) ==> QuietEffect(c, op, LateCommand(c, op))
  {
  }

  lemma CommandIsQuiet(c: Cell, op: OpId)
    requires Enabled(c, Do(op)) && !IsRetry(c.ops[op])
    ensures QuietEffect(c, op, Command(c, op))
  {
    var p := c.ops[op];
    if IsClaim(p) {
      ClaimIsQuiet(c, op);
    } else if IsRecovery(p) {
      RecoveryIsQuiet(c, op);
    } else if IsFinish(p) || IsLate(p) {
      FinishIsQuiet(c, op);
    }
  }

  lemma DeadStep(c: Cell, l: Label)
    requires Dead(c) && Enabled(c, l) && !RetryStep(c, l)
    ensures Dead(Next(c, l)) && !HandsOutTwice(c, l)
  {
    if l.Do? {
      CommandIsQuiet(c, l.op);
    }
  }

  lemma NoRequeueStays(c: Cell, l: Label)
    requires NoRequeue(c) && Enabled(c, l) && !RetryStep(c, l)
    ensures NoRequeue(Next(c, l)) && (!c.status.Pending? ==> !Next(c, l).status.Pending?)
  {
    if l.Do? {
      CommandIsQuiet(c, l.op);
    }
  }

  lemma CandidatesStay(c: Cell, l: Label, a: OpId)
    requires Enabled(c, l) && !RetryStep(c, l) && !c.status.Pending? && Candidate(Next(c, l), a)
    ensures Candidate(c, a)
  {
    if l.Do? {
      CommandIsQuiet(c, l.op);
      assert a != l.op ==> Next(c, l).ops[a] == c.ops[a];
    }
  }

  lemma ClosedStep(c: Cell, l: Label)
    requires Closed(c) && Enabled(c, l) && !RetryStep(c, l)
    ensures Closed(Next(c, l)) && !HandsOutTwice(c, l)
  {
    NoRequeueStays(c, l);
    forall a: OpId, b: OpId | Candidate(Next(c, l), a) && Candidate(Next(c, l), b) ensures a == b {
      CandidatesStay(c, l, a);
      CandidatesStay(c, l, b);
    }
    if HandsOutTwice(c, l) {
      var w: OpId :| w != l.op && Running(c, w);
      assert Candidate(c, l.op) && Candidate(c, w);
      assert false;
    }
  }

  lemma GuardedHandsOutOnce(c: Cell, x: OpId, l: Label)
    requires Guarded(c, x) && Enabled(c, l)
    ensures !HandsOutTwice(c, l)
  {
    if l.Do? && c.ops[l.op].ClaimMark? {
      assert Active(c, l.op);
      forall w: OpId | w != l.op ensures !Running(c, w) {
        assert Running(c, w) ==> Active(c, w) && w != x;
      }
    }
  }

  /** The recovery writes "failed": the message is closed. */
  lemma GuardedRecoveryWrites(c: Cell, x: OpId)
    requires Guarded(c, x)
    ensures Closed(Next(c, Do(x)))
  {
    var c' := Next(c, Do(x));
    NoRequeueStays(c, Do(x));
    forall a: OpId | Candidate(c', a) ensures c.lease == Some(a) {
      assert a != x && c'.ops[a] == c.ops[a] && Active(c, a);
    }
  }

  lemma GuardedCommand(c: Cell, x: OpId, op: OpId)
    requires Guarded(c, x) && op != x && Enabled(c, Do(op)) && !Intrudes(c, Do(op))
    ensures Guarded(Command(c, op), x)
  {
    var c' := Command(c, op);
    StepKeepsOwned(c, Do(op));
    NoRequeueStays(c, Do(op));
    CommandLeaseEffect(c, op);
    assert InSection(c.ops[op]) ==> Active(c, op);
    forall o: OpId | o != x && Active(c', o) ensures c'.lease == Some(o) {
      assert o != op ==> c'.ops[o] == c.ops[o] && Active(c, o);
    }
  }

  lemma GuardedOther(c: Cell, x: OpId, l: Label)
    requires Guarded(c, x) && Enabled(c, l) && !l.Do? && l != Crash(x)
    ensures Guarded(Next(c, l), x)
  {
    var c' := Next(c, l);
    StepKeepsOwned(c, l);
    NoRequeueStays(c, l);
    forall o: OpId | o != x && Active(c', o) ensures c'.lease == Some(o) {
      if l.Expire? || o != l.op {
        assert Active(c, o);
      }
    }
  }

  lemma GuardedCrash(c: Cell, x: OpId)
    requires Guarded(c, x)
    ensures Held(Next(c, Crash(x)))
  {
    var c' := Next(c, Crash(x));
    forall o: OpId | Active(c', o) ensures c'.lease == Some(o) {
      assert o != x && Active(c, o);
    }
  }

  lemma SafeStep(c: Cell, l: Label)
    requires Safe(c) && Enabled(c, l) && !Intrudes(c, l)
    ensures Safe(Next(c, l)) && !HandsOutTwice(c, l)
  {
    if Owned(c) && Held(c) {
      StepKeepsOwned(c, l);
      StepKeepsHeldIff(c, l);
      HeldHandsOutOnce(c, l);
    } else if Dead(c) {
      DeadStep(c, l);
    } else if Closed(c) {
      ClosedStep(c, l);
    } else {
      var x :| Guarded(c, x);
      GuardedHandsOutOnce(c, x, l);
      if l == Do(x) {
        GuardedRecoveryWrites(c, x);
      } else if l == Crash(x) {
        StepKeepsOwned(c, l);
        GuardedCrash(c, x);
      } else if l.Do? {
        GuardedCommand(c, x, l.op);
      } else {
        GuardedOther(c, x, l);
      }
    }
  }

  lemma {:induction false} SafeNeverOverlaps(c: Cell, ls: seq<Label>)
    requires Safe(c)
    ensures !Overlaps(c, ls)
    decreases |ls|
  {
    if ls != [] && Enabled(c, ls[0]) && !Intrudes(c, ls[0]) {
      SafeStep(c, ls[0]);
      SafeNeverOverlaps(Next(c, ls[0]), ls[1..]);
    }
  }

  // ---------- What is known whatever retries do ----------

  /** What a lease holder knows even when retries write on messages in processing. */
  predicate WeaklyKnows(c: Cell, p: Phase) {
    && (Decided(p) ==> c.status.Pending? || (c.acknowledged && !c.status.Processing?))
    && (p.RecWrite? ==> !c.acknowledged && p.requeue == (c.attempts < c.maxAttempts) && (c.status.Pending? || c.status.Processing?))
  }

  predicate HasAcknowledged(p: Phase) { p == FinDel(AckIt) || p.Acked? || IsLate(p) }

  ghost predicate Sane(c: Cell) {
    && Owned(c) && Held(c)
    && (c.lease.Some? ==> WeaklyKnows(c, c.ops[c.lease.value]))
    && (forall op :: op in c.ops && HasAcknowledged(c.ops[op]) ==> c.acknowledged)
  }

  /** A command's effect on what its own operation and the others know. */
  predicate KnowledgeEffect(c: Cell, op: OpId, c': Cell)
    requires op in c.ops
  {
    var p := c.ops[op];
    && op in c'.ops && (c.acknowledged ==> c'.acknowledged)
    && (HasAcknowledged(c'.ops[op]) ==> HasAcknowledged(p) || c'.acknowledged)
    && (InSection(c'.ops[op]) && (InSection(p) ==> WeaklyKnows(c, p)) ==> WeaklyKnows(c', c'.ops[op]))
    && (!c'.ops[op].Working? ==> InSection(c'.ops[op]) || WeaklyKnows(c', c'.ops[op]))
    && (InSection(p) || SameMessage(c, c')
        || (p.RetryWrite? && c' == Goto(c.(status := ZeroLoss.Pending), op, RetryDel))
        || (p.LateWrite? && c' == Goto(Finished(c, op, p.kind), op, LateDel(p.kind))))
  }

  lemma ClaimKnowledge(c: Cell, op: OpId)
    requires op in c.ops && IsClaim(c.ops[op])
    ensures KnowledgeEffect(c, op, ClaimCommand(c, op))
  {
  }

  lemma RecoveryKnowledge(c: Cell, op: OpId)
    requires op in c.ops && IsRecovery(c.ops[op])
    ensures KnowledgeEffect(c, op, RecoveryCommand(c, op))
  {
  }

  lemma FinishKnowledge(c: Cell, op: OpId)
    requires op in c.ops
    ensures IsFinish(c.ops[op]) ==> KnowledgeEffect(c, op, FinishCommand(c, op))
    ensures IsLate(c.ops[op]) ==> KnowledgeEffect(c, op, LateCommand(c, op))
  {
  }

  lemma CommandKnowledge(c: Cell, op: OpId)
    requires Enabled(c, Do(op))
    ensures KnowledgeEffect(c, op, Command(c, op))
  {
    var p := c.ops[op];
    if IsClaim(p) {
      ClaimKnowledge(c, op);
    } else if IsRecovery(p) {
      RecoveryKnowledge(c, op);
    } else if IsFinish(p) || IsLate(p) {
      FinishKnowledge(c, op);
    }
  }

  lemma CommandKeepsSane(c: Cell, op: OpId, c': Cell)
    requires Sane(c) && op in c.ops && KnowledgeEffect(c, op, c') && LeaseEffect(c, op, c') && Owned(c') && Held(c')
    requires HasCommand(c.ops[op])
    ensures Sane(c')
  {
    assert InSection(c.ops[op]) ==> Active(c, op);
    forall o | o in c'.ops && HasAcknowledged(c'.ops[o]) ensures c'.acknowledged {
      assert o != op ==> c'.ops[o] == c.ops[o];
    }
    if c'.lease.Some? && c'.lease.value != op {
      assert c'.ops[c'.lease.value] == c.ops[c.lease.value];
    }
  }

  lemma StepKeepsSane(c: Cell, l: Label)
    requires Sane(c) && Enabled(c, l) && !Deprives(c, l)
    ensures Sane(Next(c, l))
  {
    StepKeepsOwned(c, l);
    StepKeepsHeldIff(c, l);
    if l.Do? {
      CommandKnowledge(c, l.op);
      CommandLeaseEffect(c, l.op);
      CommandKeepsSane(c, l.op, Next(c, l));
    }
  }

  // ---------- Exactly when two workers can get the message ----------

  lemma OnlyHolderActive(c: Cell, op: OpId)
    requires Owned(c) && Held(c) && op in c.ops && c.lease != Some(op)
    ensures !Decided(c.ops[op]) && !c.ops[op].RecWrite? && !Running(c, op)
  {
    assert InSection(c.ops[op]) ==> Active(c, op);
  }

  /** A deprivation that is not dangerous. */
  lemma HarmlessDeprivation(c: Cell, l: Label)
    requires Sane(c) && Enabled(c, l) && Deprives(c, l) && !Endangers(c, l)
    ensures Safe(Next(c, l))
  {
    var c', h := Next(c, l), c.lease.value;
    assert c'.ops[h] == c.ops[h];
    forall op | op in c'.ops && op != h ensures Inert(c'.ops[op]) && !Candidate(c', op) && !Active(c', op) {
      if op != l.op {
        assert c'.ops[op] == c.ops[op];
        OnlyHolderActive(c, op);
        assert Active(c', op) ==> Active(c, op);
      }
    }
    if c.ops[h] == RecWrite(false) {
      StepKeepsOwned(c, l);
      assert Guarded(c', h);
    } else if Decided(c.ops[h]) {
      assert Closed(c');
    } else {
      assert Dead(c');
    }
  }

  lemma StepEndangersIff(c: Cell, l: Label)
    requires Sane(c) && Enabled(c, l)
    ensures CanOverlap(Next(c, l)) <==> Endangers(c, l)
  {
    if Endangers(c, l) {
      EndangeredOverlaps(c, l);
    } else {
      if Deprives(c, l) {
        HarmlessDeprivation(c, l);
      } else {
        StepKeepsOwned(c, l);
        StepKeepsHeldIff(c, l);
      }
      forall ls ensures !Overlaps(Next(c, l), ls) {
        SafeNeverOverlaps(Next(c, l), ls);
      }
    }
  }

  lemma {:induction false} RunKeepsSane(c: Cell, ls: seq<Label>, c': Cell)
    requires Sane(c) && Possible(c, ls) && Reaches(c, ls, c') && NeverDeprives(c, ls)
    ensures Sane(c')
    decreases |ls|
  {
    if ls != [] {
      StepKeepsSane(c, ls[0]);
      RunKeepsSane(Next(c, ls[0]), ls[1..], c');
    }
  }

  lemma FreshSane(c: Cell)
    requires Fresh(c)
    ensures Sane(c)
  {
  }

  /** When a message can go to two workers. After any run in which no blind delete took the lease of an active operation,
      with any retries, late finishes, crashes and expiries, a hand-out cannot meet a running worker. The next step
      makes that possible, without any further command of a retry or late delete, exactly when it is a blind delete
      over an operation that is inside its section or working on an unexpired lease, while the message is pending or can
      be requeued and that operation is not a recovery about to fail it. */
  lemma TwoWorkersIff(c: Cell, ls: seq<Label>, c': Cell, l: Label)
    requires Fresh(c) && Possible(c, ls) && Reaches(c, ls, c') && NeverDeprives(c, ls) && Enabled(c', l)
    ensures !CanOverlap(c')
    ensures CanOverlap(Next(c', l)) <==> Endangers(c', l)
  {
    FreshSane(c);
    RunKeepsSane(c, ls, c');
    forall more ensures !Overlaps(c', more) {
      SafeNeverOverlaps(c', more);
    }
    StepEndangersIff(c', l);
  }

  ghost predicate HandsOutTwiceSomewhere(c: Cell, ls: seq<Label>)
    requires Possible(c, ls)
    decreases |ls|
  {
    ls != [] && (HandsOutTwice(c, ls[0]) || HandsOutTwiceSomewhere(Next(c, ls[0]), ls[1..]))
  }

  /** So every run in which a hand-out meets a running worker, however it goes on, contains such a deprivation. */
  lemma {:induction false} OverlapNeedsDeprivation(c: Cell, ls: seq<Label>)
    requires Owned(c) && Held(c) && Possible(c, ls) && HandsOutTwiceSomewhere(c, ls)
    ensures !NeverDeprives(c, ls)
    decreases |ls|
  {
    HeldHandsOutOnce(c, ls[0]);
    StepKeepsOwned(c, ls[0]);
    StepKeepsHeldIff(c, ls[0]);
    if !Deprives(c, ls[0]) {
      OverlapNeedsDeprivation(Next(c, ls[0]), ls[1..]);
    }
  }

  // ---------- Without retries ----------

  ghost predicate RetryFree(c: Cell, ls: seq<Label>)
    requires Possible(c, ls)
    decreases |ls|
  {
    ls != [] ==> !RetryStep(c, ls[0]) && RetryFree(Next(c, ls[0]), ls[1..])
  }

  /** Behind a late delete the message is acknowledged and not pending. */
  ghost predicate LateDeletesHarmless(c: Cell) {
    forall op :: op in c.ops && c.ops[op].LateDel? ==> c.acknowledged && !c.status.Pending?
  }

  /** Either all is well, or a late delete has hit somebody's section on a message that is closed for good. */
  ghost predicate RetryFreeInv(c: Cell) {
    || (Inv(c) && WithinAllowance(c) && LateDeletesHarmless(c))
    || (Dead(c) && |c.handed| <= Allowance(c))
  }

  lemma LateDeleteLeavesDead(c: Cell, l: Label)
    requires Inv(c) && LateDeletesHarmless(c) && Enabled(c, l) && Deprives(c, l) && !RetryStep(c, l)
    ensures Dead(Next(c, l))
  {
    var c' := Next(c, l);
    forall op | op in c'.ops ensures Inert(c'.ops[op]) {
      if op != l.op {
        assert c'.ops[op] == c.ops[op];
        assert InSection(c.ops[op]) ==> Active(c, op);
      }
    }
  }

  lemma LateDeletesStayHarmless(c: Cell, l: Label)
    requires Inv(c) && LateDeletesHarmless(c) && Enabled(c, l) && !RetryStep(c, l)
    ensures LateDeletesHarmless(Next(c, l))
  {
    var c' := Next(c, l);
    if l.Do? {
      CommandIsQuiet(c, l.op);
      assert c.ops[l.op].RecWrite? ==> Active(c, l.op);
      forall op | op in c'.ops && c'.ops[op].LateDel? ensures c'.acknowledged && !c'.status.Pending? {
        assert op != l.op ==> c'.ops[op] == c.ops[op];
      }
    }
  }

  lemma HandedStaysWhenDead(c: Cell, l: Label)
    requires Dead(c) && Enabled(c, l)
    ensures Next(c, l).handed == c.handed && Next(c, l).maxAttempts == c.maxAttempts
  {
    if l.Do? && !Writes(c.ops[l.op]) {
      ReadsOnly(c, l.op);
    }
  }

  lemma RetryFreeStep(c: Cell, l: Label)
    requires RetryFreeInv(c) && Enabled(c, l) && !RetryStep(c, l)
    ensures RetryFreeInv(Next(c, l)) && !HandsOutTwice(c, l)
  {
    if Dead(c) && |c.handed| <= Allowance(c) {
      DeadStep(c, l);
      HandedStaysWhenDead(c, l);
    } else {
      HeldHandsOutOnce(c, l);
      if Deprives(c, l) {
        LateDeleteLeavesDead(c, l);
      } else {
        StepKeepsInvIff(c, l);
        StepWithinAllowanceIff(c, l);
        LateDeletesStayHarmless(c, l);
      }
    }
  }

  lemma {:induction false} RetryFreeRun(c: Cell, ls: seq<Label>, c': Cell)
    requires RetryFreeInv(c) && Possible(c, ls) && Reaches(c, ls, c') && RetryFree(c, ls)
    ensures RetryFreeInv(c') && !HandsOutTwiceSomewhere(c, ls)
    decreases |ls|
  {
    if ls != [] {
      RetryFreeStep(c, ls[0]);
      RetryFreeRun(Next(c, ls[0]), ls[1..], c');
    }
  }

  /** Without retries no hand-out meets a running worker and hand-outs stay within the allowance, whatever crashes,
      expires or finishes late. A late delete may hit the section of a claim, but only on a message that is closed for
      good. */
  lemma RetryFreeSafe(c: Cell, ls: seq<Label>, c': Cell)
    requires Fresh(c) && Possible(c, ls) && Reaches(c, ls, c') && RetryFree(c, ls)
    ensures !HandsOutTwiceSomewhere(c, ls)
    ensures |c'.handed| <= Allowance(c')
    ensures Inv(c') || Dead(c')
  {
    FreshInv(c);
    RetryFreeRun(c, ls, c');
  }

  // ---------- Runs that go wrong ----------

  lemma ReachesCons(c: Cell, l: Label, m: Cell, tail: seq<Label>, c': Cell) returns (ls: seq<Label>)
    requires Enabled(c, l) && m == Next(c, l) && Reaches(m, tail, c')
    ensures ls == [l] + tail && Reaches(c, ls, c')
  {
    ls := [l] + tail;
    assert ls[1..] == tail;
  }

  lemma {:induction false} ReachesAppend(c: Cell, ls: seq<Label>, m: Cell, more: seq<Label>, c': Cell)
    requires Reaches(c, ls, m) && Reaches(m, more, c')
    ensures Reaches(c, ls + more, c')
    decreases |ls|
  {
    if ls == [] {
      assert ls + more == more;
    } else {
      assert (ls + more)[1..] == ls[1..] + more;
      ReachesAppend(Next(c, ls[0]), ls[1..], m, more, c');
    }
  }

  lemma Overwrite(ops: map<OpId, Phase>, op: OpId, p: Phase, q: Phase)
    ensures ops[op := p][op := q] == ops[op := q]
  {
  }

  /** A claim up to and including SET NX and HGET. */
  lemma ClaimTakesLease(c: Cell, op: OpId) returns (ls: seq<Label>)
    requires c.status.Pending? && c.lease.None? && op !in c.ops
    ensures Reaches(c, ls, AfterClaim(c, op))
  {
    var c1 := Goto(c, op, ClaimSet);
    var c2 := Goto(c.(lease := Some(op)), op, ClaimStatus);
    var c3 := AfterClaim(c, op);
    Overwrite(c.ops, op, ClaimStatus, ClaimIncr);
    ls := ReachesCons(c2, Do(op), c3, [], c3);
    Overwrite(c.ops, op, ClaimSet, ClaimStatus);
    ls := ReachesCons(c1, Do(op), c2, ls, c3);
    ls := ReachesCons(c, Start(op, ClaimOp), c1, ls, c3);
  }

  function AfterMark(c: Cell, op: OpId): Cell {
    c.(status := ZeroLoss.Processing, attempts := c.attempts + 1, handed := c.handed + [op], open := c.open + {op}, ops := c.ops[op := Working])
  }

  /** The three commands that turn a read of "pending" into a hand-out. */
  lemma ClaimMarks(c: Cell, op: OpId) returns (ls: seq<Label>)
    requires op in c.ops && c.ops[op].ClaimIncr?
    ensures Reaches(c, ls, AfterMark(c, op))
  {
    var c1 := Goto(c.(attempts := c.attempts + 1), op, ClaimMax);
    var c2 := Goto(c.(attempts := c.attempts + 1), op, ClaimMark);
    var c3 := AfterMark(c, op);
    Overwrite(c.ops, op, ClaimMark, Working);
    ls := ReachesCons(c2, Do(op), c3, [], c3);
    Overwrite(c.ops, op, ClaimMax, ClaimMark);
    ls := ReachesCons(c1, Do(op), c2, ls, c3);
    ls := ReachesCons(c, Do(op), c1, ls, c3);
  }

  /** A retry up to and including its second HGET. */
  lemma RetryReads(c: Cell, op: OpId) returns (ls: seq<Label>)
    requires op !in c.ops && c.attempts < c.maxAttempts
    ensures Reaches(c, ls, Goto(c, op, RetryWrite))
  {
    var c1 := Goto(c, op, RetryRead);
    var c2 := Goto(c, op, RetryMax(c.attempts));
    var c3 := Goto(c, op, RetryWrite);
    Overwrite(c.ops, op, RetryMax(c.attempts), RetryWrite);
    ls := ReachesCons(c2, Do(op), c3, [], c3);
    Overwrite(c.ops, op, RetryRead, RetryMax(c.attempts));
    ls := ReachesCons(c1, Do(op), c2, ls, c3);
    ls := ReachesCons(c, Start(op, RetryOp), c1, ls, c3);
  }

  /** A retry up to and including its HSET. */
  lemma RetryWrites(c: Cell, op: OpId) returns (ls: seq<Label>)
    requires op !in c.ops && c.attempts < c.maxAttempts
    ensures Reaches(c, ls, Goto(c.(status := ZeroLoss.Pending), op, RetryDel))
  {
    var c3 := Goto(c, op, RetryWrite);
    var c4 := Goto(c.(status := ZeroLoss.Pending), op, RetryDel);
    var looks := RetryReads(c, op);
    Overwrite(c.ops, op, RetryWrite, RetryDel);
    var writes := ReachesCons(c3, Do(op), c4, [], c4);
    ls := looks + writes;
    ReachesAppend(c, looks, c3, writes, c4);
  }

  lemma RetryDeletes(c: Cell, op: OpId) returns (ls: seq<Label>)
    requires op in c.ops && c.ops[op].RetryDel?
    ensures Reaches(c, ls, Goto(c.(lease := None), op, Done))
  {
    var c1 := Goto(c.(lease := None), op, Done);
    ls := ReachesCons(c, Do(op), c1, [], c1);
  }

  lemma ClaimRuns(c: Cell, op: OpId) returns (ls: seq<Label>)
    requires c.status.Pending? && c.lease.None? && op !in c.ops
    ensures Reaches(c, ls, AfterMark(AfterClaim(c, op), op))
  {
    var takes := ClaimTakesLease(c, op);
    var marks := ClaimMarks(AfterClaim(c, op), op);
    ls := takes + marks;
    ReachesAppend(c, takes, AfterClaim(c, op), marks, AfterMark(AfterClaim(c, op), op));
  }

  lemma RetryRuns(c: Cell, op: OpId) returns (ls: seq<Label>)
    requires op !in c.ops && c.attempts < c.maxAttempts
    ensures Reaches(c, ls, Goto(c.(status := ZeroLoss.Pending, lease := None), op, Done))
  {
    var c1 := Goto(c.(status := ZeroLoss.Pending), op, RetryDel);
    var c2 := Goto(c1.(lease := None), op, Done);
    var writes := RetryWrites(c, op);
    var deletes := RetryDeletes(c1, op);
    ls := writes + deletes;
    ReachesAppend(c, writes, c1, deletes, c2);
    Overwrite(c.ops, op, RetryDel, Done);
  }

  /** A lone retry is enough: a claim runs, a retry runs from beginning to end while the worker works, and a second claim
      runs. Both workers now have the message, and nothing was requeued. */
  lemma LoneRetryHandsOutTwice(c: Cell, a: OpId, r: OpId, b: OpId) returns (ls: seq<Label>, c': Cell)
    requires Fresh(c) && c.maxAttempts >= 2 && a != r && r != b && a != b
    ensures Reaches(c, ls, c')
    ensures Running(c', a) && Running(c', b) && c'.handed == [a, b] && c'.requeued == []
  {
    var c1 := AfterMark(AfterClaim(c, a), a);
    var c2 := Goto(c1.(status := ZeroLoss.Pending, lease := None), r, Done);
    c' := AfterMark(AfterClaim(c2, b), b);
    var l0 := ClaimRuns(c, a);
    var l1 := RetryRuns(c1, r);
    var l2 := ClaimRuns(c2, b);
    ReachesAppend(c, l0, c1, l1, c2);
    ReachesAppend(c, l0 + l1, c2, l2, c');
    ls := l0 + l1 + l2;
  }

  /** What a finish leaves: the flag or the status it stands for, and no lease. */
  function AfterFinish(c: Cell, op: OpId, kind: Finish): Cell {
    var done := match kind
      case AckIt => c.(acknowledged := true)
      case CompleteIt => c.(status := ZeroLoss.Completed, open := c.open - {op})
      case FailIt => c.(status := ZeroLoss.Failed, open := c.open - {op});
    done.(lease := None, ops := c.ops[op := if kind.AckIt? then Acked else Done])
  }

  /** A worker that holds the lease acknowledges, completes or fails the message. */
  lemma FinishRuns(c: Cell, op: OpId, kind: Finish) returns (ls: seq<Label>)
    requires op in c.ops && c.ops[op].Working? && c.lease == Some(op)
    ensures Reaches(c, ls, AfterFinish(c, op, kind))
  {
    var c1 := Goto(c, op, FinStatus(kind));
    var c2 := Goto(c, op, FinWrite(kind));
    var c4 := AfterFinish(c, op, kind);
    var c3 := c4.(lease := c.lease, ops := c.ops[op := FinDel(kind)]);
    ls := FinishStep(c3, c4, op, c.ops, FinDel(kind), c4.ops[op], [], c4);
    ls := FinishStep(c2, c3, op, c.ops, FinWrite(kind), FinDel(kind), ls, c4);
    ls := FinishStep(c1, c2, op, c.ops, FinStatus(kind), FinWrite(kind), ls, c4);
    ls := ReachesCons(c, Begin(op, kind), c1, ls, c4);
  }

  /** A worker that has acknowledged completes or fails the message later. */
  lemma LateFinishRuns(c: Cell, op: OpId, kind: Finish) returns (ls: seq<Label>)
    requires op in c.ops && c.ops[op].Acked?
    ensures Reaches(c, ls, AfterFinish(c, op, kind))
  {
    var c1 := Goto(c, op, LateStatus(kind));
    var c2 := Goto(c, op, LateWrite(kind));
    var c4 := AfterFinish(c, op, kind);
    var c3 := c4.(lease := c.lease, ops := c.ops[op := LateDel(kind)]);
    ls := LateStep(c3, c4, op, c.ops, LateDel(kind), c4.ops[op], [], c4);
    ls := LateStep(c2, c3, op, c.ops, LateWrite(kind), LateDel(kind), ls, c4);
    ls := LateStep(c1, c2, op, c.ops, LateStatus(kind), LateWrite(kind), ls, c4);
    ls := ReachesCons(c, Begin(op, kind), c1, ls, c4);
  }

  lemma LateStep(now: Cell, soon: Cell, op: OpId, ops: map<OpId, Phase>, p: Phase, q: Phase, tail: seq<Label>, c': Cell)
    returns (ls: seq<Label>)
    requires IsLate(p) && now.ops == ops[op := p] && soon.ops == ops[op := q] && Reaches(soon, tail, c')
    requires LateCommand(now, op) == soon.(ops := now.ops[op := q])
    ensures Reaches(now, ls, c')
  {
    Overwrite(ops, op, p, q);
    ls := ReachesCons(now, Do(op), soon, tail, c');
  }

  lemma FinishStep(now: Cell, soon: Cell, op: OpId, ops: map<OpId, Phase>, p: Phase, q: Phase, tail: seq<Label>, c': Cell)
    returns (ls: seq<Label>)
    requires IsFinish(p) && now.ops == ops[op := p] && soon.ops == ops[op := q] && Reaches(soon, tail, c')
    requires FinishCommand(now, op) == soon.(ops := now.ops[op := q])
    ensures Reaches(now, ls, c')
  {
    Overwrite(ops, op, p, q);
    ls := ReachesCons(now, Do(op), soon, tail, c');
  }

  lemma RecoveryMoves(now: Cell, soon: Cell, r: OpId, ops: map<OpId, Phase>, p: Phase, q: Phase, tail: seq<Label>, c': Cell)
    returns (ls: seq<Label>)
    requires IsRecovery(p) && now.ops == ops[r := p] && soon.ops == ops[r := q] && Reaches(soon, tail, c')
    requires RecoveryCommand(now, r) == soon.(ops := now.ops[r := q])
    ensures Reaches(now, ls, c')
  {
    Overwrite(ops, r, p, q);
    ls := ReachesCons(now, Do(r), soon, tail, c');
  }

  lemma RecoveryTakesLease(c: Cell, r: OpId) returns (ls: seq<Label>)
    requires c.lease.None? && Requeueable(c) && r !in c.ops
    ensures Reaches(c, ls, AfterRecovery(c, r))
  {
    var c1 := Goto(c, r, RecRead);
    var c2 := Goto(c, r, RecLease);
    var c3 := Goto(c, r, RecSet);
    var c4 := Goto(c.(lease := Some(r)), r, RecRecheck);
    var c5 := AfterRecovery(c, r);
    ls := RecoveryMoves(c4, c5, r, c.ops, RecRecheck, RecWrite(true), [], c5);
    ls := RecoveryMoves(c3, c4, r, c.ops, RecSet, RecRecheck, ls, c5);
    ls := RecoveryMoves(c2, c3, r, c.ops, RecLease, RecSet, ls, c5);
    ls := RecoveryMoves(c1, c2, r, c.ops, RecRead, RecLease, ls, c5);
    ls := ReachesCons(c, Start(r, RecoverOp), c1, ls, c5);
  }

  /** A recovery takes the message from the claim that was handed out last. */
  function AfterRequeue(c: Cell, r: OpId, claim: OpId): Cell {
    c.(status := ZeroLoss.Pending, requeued := c.requeued + [claim], open := c.open - {claim}, ops := c.ops[r := Done])
  }

  lemma RecoveryRuns(c: Cell, r: OpId, claim: OpId) returns (ls: seq<Label>)
    requires c.lease.None? && Requeueable(c) && r !in c.ops && ProcessedBy(c, claim)
    ensures Reaches(c, ls, AfterRequeue(c, r, claim))
  {
    var c1 := AfterRecovery(c, r);
    var c3 := AfterRequeue(c, r, claim);
    var c2 := c3.(lease := Some(r), ops := c.ops[r := RecDel]);
    var takes := RecoveryTakesLease(c, r);
    var writes := RecoveryMoves(c2, c3, r, c.ops, RecDel, Done, [], c3);
    writes := RecoveryMoves(c1, c2, r, c.ops, RecWrite(true), RecDel, writes, c3);
    ls := takes + writes;
    ReachesAppend(c, takes, c1, writes, c3);
  }

  /** A failed message is claimed between a retry's HSET and its DEL. The DEL takes the lease of the worker, who has done
      nothing wrong, and a recovery and a claim give the message to a second worker. */
  lemma DelayedDelete(c: Cell, r: OpId, b: OpId, v: OpId, d: OpId) returns (ls: seq<Label>, c': Cell)
    requires c.status.Failed? && c.lease.None? && !c.acknowledged && c.attempts + 1 < c.maxAttempts && Owned(c)
    requires r !in c.ops && b !in c.ops && v !in c.ops && d !in c.ops
    requires r != b && r != v && r != d && b != v && b != d && v != d
    ensures Reaches(c, ls, c')
    ensures Running(c', b) && Running(c', d) && c'.handed == c.handed + [b] + [d] && c'.expired == c.expired && c'.lost == c.lost
  {
    var c1 := Goto(c.(status := ZeroLoss.Pending), r, RetryDel);
    var c2 := AfterMark(AfterClaim(c1, b), b);
    var c3 := Goto(c2.(lease := None), r, Done);
    var c4 := AfterRequeue(c3, v, b);
    c' := AfterMark(AfterClaim(c4, d), d);
    var l0 := RetryWrites(c, r);
    var l1 := ClaimRuns(c1, b);
    var l2 := RetryDeletes(c2, r);
    var l3 := RecoveryRuns(c3, v, b);
    var l4 := ClaimRuns(c4, d);
    ReachesAppend(c, l0, c1, l1, c2);
    ReachesAppend(c, l0 + l1, c2, l2, c3);
    ReachesAppend(c, l0 + l1 + l2, c3, l3, c4);
    ReachesAppend(c, l0 + l1 + l2 + l3, c4, l4, c');
    ls := l0 + l1 + l2 + l3 + l4;
  }

  /** From a fresh message: a first worker fails it, and then that happens. No lease runs out and nobody crashes, yet a live
      worker's message is requeued and goes to a second worker. */
  lemma DelayedDeleteHandsOutTwice(c: Cell, a: OpId, r: OpId, b: OpId, v: OpId, d: OpId) returns (ls: seq<Label>, c': Cell)
    requires Fresh(c) && c.maxAttempts >= 3 && Distinct([a, r, b, v, d])
    ensures Reaches(c, ls, c')
    ensures Running(c', b) && Running(c', d) && c'.handed == [a, b, d] && c'.expired == {} && c'.lost == 0
  {
    var all := [a, r, b, v, d];
    assert all[0] == a && all[1] == r && all[2] == b && all[3] == v && all[4] == d;
    var c1 := AfterMark(AfterClaim(c, a), a);
    var c2 := AfterFinish(c1, a, FailIt);
    var l0 := ClaimRuns(c, a);
    var l1 := FinishRuns(c1, a, FailIt);
    ReachesAppend(c, l0, c1, l1, c2);
    var l2;
    l2, c' := DelayedDelete(c2, r, b, v, d);
    ReachesAppend(c, l0 + l1, c2, l2, c');
    ls := l0 + l1 + l2;
  }

  /** On a message that nobody processes, a retry racing with two claims does the same: its DEL takes the lease of the
      first claim. */
  lemma RetryRaceHandsOutTwice(c: Cell, r: OpId, a: OpId, b: OpId) returns (ls: seq<Label>, c': Cell)
    requires c.status.Failed? && c.lease.None? && c.attempts < c.maxAttempts
    requires r !in c.ops && a !in c.ops && b !in c.ops && a != r && r != b && a != b && Owned(c)
    ensures Reaches(c, ls, c')
    ensures Running(c', a) && Running(c', b)
    ensures c'.handed == c.handed + [a] + [b] && c'.requeued == c.requeued && c'.attempts == c.attempts + 2
  {
    var c1 := Goto(c.(status := ZeroLoss.Pending), r, RetryDel);
    var c2 := AfterClaim(c1, a);
    var c3 := Goto(c2.(lease := None), r, Done);
    var c4 := AfterClaim(c3, b);
    var c5 := AfterMark(c4, a);
    c' := AfterMark(c5, b);
    var l0 := RetryWrites(c, r);
    var l1 := ClaimTakesLease(c1, a);
    var l2 := RetryDeletes(c2, r);
    var l3 := ClaimTakesLease(c3, b);
    var l4 := ClaimMarks(c4, a);
    var l5 := ClaimMarks(c5, b);
    ReachesAppend(c, l0, c1, l1, c2);
    ReachesAppend(c, l0 + l1, c2, l2, c3);
    ReachesAppend(c, l0 + l1 + l2, c3, l3, c4);
    ReachesAppend(c, l0 + l1 + l2 + l3, c4, l4, c5);
    ReachesAppend(c, l0 + l1 + l2 + l3 + l4, c5, l5, c');
    ls := l0 + l1 + l2 + l3 + l4 + l5;
  }

  /** The late delete of a worker that acknowledged can take the lease of a claim inside its section. */
  lemma LateDeleteDeprives(c: Cell, x: OpId, b: OpId) returns (ls: seq<Label>, c': Cell)
    requires Owned(c) && x in c.ops && c.ops[x].LateDel? && c.lease.None? && b !in c.ops
    ensures Reaches(c, ls, c') && Active(c', b) && c'.lease.None?
  {
    var c1 := Goto(c, b, ClaimSet);
    var c2 := Goto(c.(lease := Some(b)), b, ClaimStatus);
    c' := Goto(c2.(lease := None), x, if c.ops[x].kind.AckIt? then Acked else Done);
    ls := ReachesCons(c2, Do(x), c', [], c');
    Overwrite(c.ops, b, ClaimSet, ClaimStatus);
    ls := ReachesCons(c1, Do(b), c2, ls, c');
    ls := ReachesCons(c, Start(b, ClaimOp), c1, ls, c');
  }

  /** A claim that crashes after HINCRBY leaves the message pending with an attempt gone, so attempts grow past
      any limit although nothing was ever handed out. */
  lemma {:induction false} CrashedClaimsBurnAttempts(c: Cell, n: nat) returns (ls: seq<Label>, c': Cell)
    requires Fresh(c)
    ensures Reaches(c, ls, c')
    ensures c'.attempts == c'.lost == n && c'.status.Pending? && c'.handed == [] && c'.lease.None?
    ensures forall op: OpId :: op in c'.ops <==> op < n
  {
    if n == 0 {
      ls, c' := [], c;
    } else {
      var ls0, c0 := CrashedClaimsBurnAttempts(c, n - 1);
      var op := n - 1;
      var ls1 := BurnOne(c0, op);
      var c1 := AfterBurn(c0, op);
      ReachesAppend(c, ls0, c0, ls1, c1);
      ls, c' := ls0 + ls1, c1;
      forall o: OpId ensures o in c'.ops <==> o < n {
        assert o in c0.ops <==> o < n - 1;
      }
    }
  }

  /** A crash right after HINCRBY, and in time the end of the lease. */
  lemma CrashAndExpire(c: Cell, op: OpId) returns (ls: seq<Label>)
    requires op in c.ops && c.ops[op].ClaimMax? && c.lease == Some(op)
    ensures Reaches(c, ls, Goto(c.(lease := None, lost := c.lost + 1, expired := c.expired + {op}), op, Crashed))
  {
    var c1 := Goto(c.(lost := c.lost + 1), op, Crashed);
    var c2 := c1.(lease := None, expired := c.expired + {op});
    ls := ReachesCons(c1, Expire, c2, [], c2);
    ls := ReachesCons(c, Crash(op), c1, ls, c2);
  }

  function AfterBurn(c: Cell, op: OpId): Cell {
    c.(attempts := c.attempts + 1, lost := c.lost + 1, expired := c.expired + {op}, ops := c.ops[op := Crashed])
  }

  /** After HINCRBY. */
  function AfterCount(c: Cell, op: OpId): Cell {
    c.(lease := Some(op), attempts := c.attempts + 1, ops := c.ops[op := ClaimMax])
  }

  lemma ClaimCounts(c: Cell, op: OpId)
    ensures Enabled(AfterClaim(c, op), Do(op)) && Next(AfterClaim(c, op), Do(op)) == AfterCount(c, op)
  {
    Overwrite(c.ops, op, ClaimIncr, ClaimMax);
  }

  lemma CountThenBurn(c: Cell, op: OpId)
    requires c.lease.None?
    ensures var c1 := AfterCount(c, op);
      Goto(c1.(lease := None, lost := c1.lost + 1, expired := c1.expired + {op}), op, Crashed) == AfterBurn(c, op)
  {
    Overwrite(c.ops, op, ClaimMax, Crashed);
  }

  lemma CountAndCrash(c: Cell, op: OpId) returns (ls: seq<Label>)
    requires op !in c.ops && c.lease.None?
    ensures Reaches(AfterClaim(c, op), ls, AfterBurn(c, op))
  {
    var crashes := CrashAndExpire(AfterCount(c, op), op);
    CountThenBurn(c, op);
    ClaimCounts(c, op);
    ls := ReachesCons(AfterClaim(c, op), Do(op), AfterCount(c, op), crashes, AfterBurn(c, op));
  }

  lemma BurnOne(c: Cell, op: OpId) returns (ls: seq<Label>)
    requires c.status.Pending? && c.lease.None? && op !in c.ops
    ensures Reaches(c, ls, AfterBurn(c, op))
  {
    var taken := ClaimTakesLease(c, op);
    var crashed := CountAndCrash(c, op);
    ls := taken + crashed;
    ReachesAppend(c, taken, AfterClaim(c, op), crashed, AfterBurn(c, op));
  }

  // ---------- Refusals ----------

  /** What each call looks for before it does anything: a free lease, an orphan, attempts that are left, its own lease. */
  predicate Refused(c: Cell, op: OpId)
    requires op in c.ops
  {
    var p := c.ops[op];
    || ((p.ClaimSet? || p.RecLease? || p.RecSet?) && c.lease.Some?)
    || (p.RecRead? && (!c.status.Processing? || c.acknowledged))
    || (p.RetryMax? && p.seen >= c.maxAttempts)
    || (p.RenewGet? && c.lease != Some(p.worker))
    || (p.RenewExpire? && c.lease.None?)
  }

  lemma DoneStays(c: Cell, l: Label, op: OpId)
    requires Enabled(c, l) && op in c.ops && c.ops[op].Done?
    ensures op in Next(c, l).ops && Next(c, l).ops[op].Done?
  {
    if l.Do? && !IsRetry(c.ops[l.op]) {
      NoNewRetry(c, l.op);
    }
  }

  /** An operation that does not find it changes nothing and never issues another command. */
  lemma RefusedForGood(c: Cell, op: OpId, ls: seq<Label>, c': Cell)
    requires Enabled(c, Do(op)) && Refused(c, op) && Reaches(Next(c, Do(op)), ls, c')
    ensures Next(c, Do(op)) == c.(ops := c.ops[op := Done])
    ensures op in c'.ops && c'.ops[op].Done?
  {
    StaysDone(Next(c, Do(op)), ls, c', op);
  }

  lemma {:induction false} StaysDone(c: Cell, ls: seq<Label>, c': Cell, op: OpId)
    requires op in c.ops && c.ops[op].Done? && Reaches(c, ls, c')
    ensures op in c'.ops && c'.ops[op].Done?
    decreases |ls|
  {
    if ls != [] {
      DoneStays(c, ls[0], op);
      StaysDone(Next(c, ls[0]), ls[1..], c', op);
    }
  }

  // ---------- Renewals ----------

  lemma LostLeaseStaysLost(c: Cell, l: Label, w: OpId)
    requires Owned(c) && Enabled(c, l) && w in c.ops && PastTaking(c.ops[w])
    ensures w in Next(c, l).ops && PastTaking(Next(c, l).ops[w])
    ensures c.lease != Some(w) ==> Next(c, l).lease != Some(w)
  {
    if l.Do? {
      CommandLeaseEffect(c, l.op);
    }
  }

  /** The lease is that of `w` at every moment of the run. */
  ghost predicate KeepsLease(c: Cell, ls: seq<Label>, w: OpId)
    requires Possible(c, ls)
    decreases |ls|
  {
    c.lease == Some(w) && (ls != [] ==> KeepsLease(Next(c, ls[0]), ls[1..], w))
  }

  /** A lost lease never comes back to the claim that lost it. */
  lemma {:induction false} HeldAtTheEndIff(c: Cell, ls: seq<Label>, c': Cell, w: OpId)
    requires Owned(c) && Possible(c, ls) && Reaches(c, ls, c') && w in c.ops && PastTaking(c.ops[w])
    ensures c'.lease == Some(w) <==> KeepsLease(c, ls, w)
    decreases |ls|
  {
    if ls != [] {
      StepKeepsOwned(c, ls[0]);
      LostLeaseStaysLost(c, ls[0], w);
      HeldAtTheEndIff(Next(c, ls[0]), ls[1..], c', w);
    }
  }

  /** A renewal whose GET has just found the lease of `w`, and what its EXPIRE does after any commands of others in
      between: it answers yes exactly when there is a lease at all, and it extends the lease of `w` exactly when `w`
      held it all the time. */
  lemma RenewalExtendsOwnIff(c: Cell, g: OpId, w: OpId, ls: seq<Label>, c': Cell)
    requires Owned(c) && g in c.ops && c.ops[g] == RenewGet(w) && c.lease == Some(w)
    requires Possible(Next(c, Do(g)), ls) && Reaches(Next(c, Do(g)), ls, c') && g in c'.ops && c'.ops[g] == RenewExpire(w)
    ensures |Next(c', Do(g)).renewed| == |c'.renewed| + 1 <==> c'.lease.Some?
    ensures Next(c', Do(g)).renewed == c'.renewed + [Renewal(w, w)] <==> KeepsLease(Next(c, Do(g)), ls, w)
  {
    var c1 := Next(c, Do(g));
    StepKeepsOwned(c, Do(g));
    LostLeaseStaysLost(c, Do(g), w);
    HeldAtTheEndIff(c1, ls, c', w);
    var after := Next(c', Do(g)).renewed;
    if c'.lease.Some? {
      assert after[|c'.renewed|] == Renewal(w, c'.lease.value);
    }
  }

  lemma RenewalReads(c: Cell, w: OpId, g: OpId) returns (ls: seq<Label>)
    requires c.lease == Some(w) && g !in c.ops
    ensures Reaches(c, ls, Goto(c, g, RenewExpire(w)))
  {
    var c1 := Goto(c, g, RenewGet(w));
    var c2 := Goto(c, g, RenewExpire(w));
    Overwrite(c.ops, g, RenewGet(w), RenewExpire(w));
    ls := ReachesCons(c1, Do(g), c2, [], c2);
    ls := ReachesCons(c, Start(g, RenewOp(w)), c1, ls, c2);
  }

  lemma LeaseChangesHands(c: Cell, b: OpId) returns (ls: seq<Label>)
    requires Enabled(c, Expire) && b !in c.ops
    ensures Reaches(c, ls, Goto(c.(lease := Some(b), expired := c.expired + {c.lease.value}), b, ClaimStatus))
  {
    var c1 := c.(lease := None, expired := c.expired + {c.lease.value});
    var c2 := Goto(c1, b, ClaimSet);
    var c3 := Goto(c1.(lease := Some(b)), b, ClaimStatus);
    Overwrite(c.ops, b, ClaimSet, ClaimStatus);
    ls := ReachesCons(c2, Do(b), c3, [], c3);
    ls := ReachesCons(c1, Start(b, ClaimOp), c2, ls, c3);
    ls := ReachesCons(c, Expire, c1, ls, c3);
  }

  /** The lease can run out and be taken between GET and EXPIRE: the renewal then extends the new owner's lease, and
      answers yes all the same. */
  lemma RenewalExtendsForeignLease(c: Cell, w: OpId, g: OpId, b: OpId) returns (ls: seq<Label>, c': Cell)
    requires w in c.ops && c.ops[w].Working? && c.lease == Some(w)
    requires g !in c.ops && b !in c.ops && g != b
    ensures Reaches(c, ls, c') && c'.lease == Some(b)
    ensures c'.renewed == c.renewed + [Renewal(w, b)]
  {
    var c1 := Goto(c, g, RenewExpire(w));
    var c2 := Goto(c1.(lease := Some(b), expired := c.expired + {w}), b, ClaimStatus);
    c' := Goto(c2.(renewed := c.renewed + [Renewal(w, b)]), g, Done);
    var l0 := RenewalReads(c, w, g);
    var l1 := LeaseChangesHands(c1, b);
    var l2 := ReachesCons(c2, Do(g), c', [], c');
    ReachesAppend(c, l0, c1, l1, c2);
    ReachesAppend(c, l0 + l1, c2, l2, c');
    ls := l0 + l1 + l2;
  }
}
