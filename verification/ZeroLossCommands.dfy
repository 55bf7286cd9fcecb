/** The zero-loss lease protocol at the grain of single Redis commands
    (src/queue/zero-loss-message.service.ts). One cell is one message with its lease key; any number of
    operations of any number of instances interleave on it, one command at a time, and may crash between any
    two commands. Commands of different messages touch different keys.

    The lease records which operation set it. Two timing assumptions are built into `Enabled`: a lease does not
    expire under an operation that is still between its first and last command, and a worker acknowledges, completes
    or fails while it holds the lease, or completes or fails later if it has acknowledged before. */
module ZeroLossCommands {
  import opened Common
  import opened ZeroLoss

  type OpId = nat

  datatype Finish = AckIt | CompleteIt | FailIt

  /** The next command of an operation. */
  datatype Phase =
    // markProcessing
    | ClaimSet        // SET lease NX
    | ClaimStatus     // HGET status
    | ClaimRelease    // DEL lease, status was not pending
    | ClaimIncr       // HINCRBY attempts
    | ClaimMax        // HGET maxAttempts
    | ClaimMark       // HSET status processing
    | Working         // returned true; the worker runs
    // recoverOne
    | RecRead         // HGETALL
    | RecLease        // GET lease
    | RecSet          // SET lease NX
    | RecRecheck      // HGETALL under the claim
    | RecWrite(requeue: bool)  // HSET status pending or failed
    | RecDel          // DEL lease
    // acknowledgeMessage, markCompleted, markFailed
    | FinStatus(kind: Finish)  // HGET status
    | FinWrite(kind: Finish)   // HSET
    | FinDel(kind: Finish)     // DEL lease
    | Acked           // acknowledged, which gave up the lease; the worker goes on
    // a finish after an acknowledgement, without a lease
    | LateStatus(kind: Finish) // HGET status
    | LateWrite(kind: Finish)  // HSET
    | LateDel(kind: Finish)    // DEL lease
    // retryMessage
    | RetryRead       // HGET attempts
    | RetryMax(seen: nat)      // HGET maxAttempts
    | RetryWrite      // HSET status pending
    | RetryDel        // DEL lease
    // renewProcessingLease, for the claim of `worker`
    | RenewGet(worker: OpId)     // GET lease
    | RenewExpire(worker: OpId)  // EXPIRE lease
    | Done
    | Crashed

  datatype Kind = ClaimOp | RecoverOp | RetryOp | RenewOp(worker: OpId)

  datatype Label =
    | Start(op: OpId, kind: Kind)
    | Do(op: OpId)
    | Begin(op: OpId, finish: Finish)
    | Crash(op: OpId)
    | Expire

  /** An EXPIRE that answered yes: for which worker it was sent, and whose lease it extended. */
  datatype Renewal = Renewal(worker: OpId, lease: OpId)

  /** `handed` lists the claims in the order in which they marked the message as processing, `requeued` the claims
      whose processing a recovery ended, `open` holds the claims handed out and neither requeued nor completed nor
      failed since, `expired` the operations whose lease ran out, `lost` counts claims that crashed after HINCRBY, and
      `renewed` lists the renewals; the protocol reads none of the six. */
  datatype Cell = Cell(
    status: Status, attempts: nat, maxAttempts: int, acknowledged: bool, lease: Option<OpId>, ops: map<OpId, Phase>,
    handed: seq<OpId>, requeued: seq<OpId>, open: set<OpId>, expired: set<OpId>, lost: nat,
    renewed: seq<Renewal>)

  predicate IsClaim(p: Phase) {
    p.ClaimSet? || p.ClaimStatus? || p.ClaimRelease? || p.ClaimIncr? || p.ClaimMax? || p.ClaimMark?
  }

  predicate IsRecovery(p: Phase) {
    p.RecRead? || p.RecLease? || p.RecSet? || p.RecRecheck? || p.RecWrite? || p.RecDel?
  }

  predicate IsFinish(p: Phase) { p.FinStatus? || p.FinWrite? || p.FinDel? }

  predicate IsLate(p: Phase) { p.LateStatus? || p.LateWrite? || p.LateDel? }

  predicate IsRetry(p: Phase) { p.RetryRead? || p.RetryMax? || p.RetryWrite? || p.RetryDel? }

  predicate IsRenewal(p: Phase) { p.RenewGet? || p.RenewExpire? }

  predicate HasCommand(p: Phase) { !p.Working? && !p.Acked? && !p.Done? && !p.Crashed? }

  /** Between the SET NX that took the lease, or the start of a finish, and the last command. */
  predicate InSection(p: Phase) {
    || (IsClaim(p) && !p.ClaimSet?)
    || p.RecRecheck? || p.RecWrite? || p.RecDel?
    || IsFinish(p)
  }

  function FirstPhase(kind: Kind): Phase {
    match kind
    case ClaimOp => ClaimSet
    case RecoverOp => RecRead
    case RetryOp => RetryRead
    case RenewOp(worker) => RenewGet(worker)
  }

  predicate Enabled(c: Cell, l: Label) {
    match l
    case Start(op, kind) => op !in c.ops
    case Do(op) => op in c.ops && HasCommand(c.ops[op])
    case Begin(op, finish) => op in c.ops && (c.ops[op].Acked? || (c.ops[op].Working? && c.lease == Some(op)))
    case Crash(op) => op in c.ops && !c.ops[op].Done? && !c.ops[op].Crashed?
    case Expire => c.lease.Some? && (c.lease.value in c.ops ==> !InSection(c.ops[c.lease.value]))
  }

  function Goto(c: Cell, op: OpId, p: Phase): Cell { c.(ops := c.ops[op := p]) }

  function Last(s: seq<OpId>, default: OpId): OpId { if s == [] then default else s[|s| - 1] }

  function ClaimCommand(c: Cell, op: OpId): Cell
    requires op in c.ops && IsClaim(c.ops[op])
  {
    match c.ops[op]
    case ClaimSet => if c.lease.None? then Goto(c.(lease := Some(op)), op, ClaimStatus) else Goto(c, op, Done)
    case ClaimStatus => Goto(c, op, if c.status.Pending? then ClaimIncr else ClaimRelease)
    case ClaimRelease => Goto(c.(lease := None), op, Done)
    case ClaimIncr => Goto(c.(attempts := c.attempts + 1), op, ClaimMax)
    case ClaimMax => Goto(c, op, ClaimMark)
    case ClaimMark => Goto(c.(status := Processing, handed := c.handed + [op], open := c.open + {op}), op, Working)
  }

  function RecoveryCommand(c: Cell, op: OpId): Cell
    requires op in c.ops && IsRecovery(c.ops[op])
  {
    match c.ops[op]
    case RecRead => Goto(c, op, if c.status.Processing? && !c.acknowledged then RecLease else Done)
    case RecLease => Goto(c, op, if c.lease.Some? then Done else RecSet)
    case RecSet => if c.lease.None? then Goto(c.(lease := Some(op)), op, RecRecheck) else Goto(c, op, Done)
    case RecRecheck =>
      Goto(c, op, if c.status.Processing? && !c.acknowledged then RecWrite(c.attempts < c.maxAttempts) else RecDel)
    case RecWrite(requeue) =>
      var last := Last(c.handed, op);
      Goto(c.(status := if requeue then Pending else Failed, requeued := c.requeued + [last], open := c.open - {last}),
           op, RecDel)
    case RecDel => Goto(c.(lease := None), op, Done)
  }

  function Finished(c: Cell, op: OpId, kind: Finish): Cell {
    match kind
    case AckIt => c.(acknowledged := true)
    case CompleteIt => c.(status := Completed, open := c.open - {op})
    case FailIt => c.(status := Failed, open := c.open - {op})
  }

  function FinishCommand(c: Cell, op: OpId): Cell
    requires op in c.ops && IsFinish(c.ops[op])
  {
    match c.ops[op]
    case FinStatus(kind) => Goto(c, op, FinWrite(kind))
    case FinWrite(kind) => Goto(Finished(c, op, kind), op, FinDel(kind))
    case FinDel(kind) => Goto(c.(lease := None), op, if kind.AckIt? then Acked else Done)
  }

  function LateCommand(c: Cell, op: OpId): Cell
    requires op in c.ops && IsLate(c.ops[op])
  {
    match c.ops[op]
    case LateStatus(kind) => Goto(c, op, LateWrite(kind))
    case LateWrite(kind) => Goto(Finished(c, op, kind), op, LateDel(kind))
    case LateDel(kind) => Goto(c.(lease := None), op, if kind.AckIt? then Acked else Done)
  }

  function RetryCommand(c: Cell, op: OpId): Cell
    requires op in c.ops && IsRetry(c.ops[op])
  {
    match c.ops[op]
    case RetryRead => Goto(c, op, RetryMax(c.attempts))
    case RetryMax(seen) => Goto(c, op, if seen >= c.maxAttempts then Done else RetryWrite)
    case RetryWrite => Goto(c.(status := Pending), op, RetryDel)
    case RetryDel => Goto(c.(lease := None), op, Done)
  }

  function RenewCommand(c: Cell, op: OpId): Cell
    requires op in c.ops && IsRenewal(c.ops[op])
  {
    match c.ops[op]
    case RenewGet(w) => Goto(c, op, if c.lease == Some(w) then RenewExpire(w) else Done)
    case RenewExpire(w) =>
      Goto(if c.lease.Some? then c.(renewed := c.renewed + [Renewal(w, c.lease.value)]) else c, op, Done)
  }

  /** One command of operation `op`. */
  function Command(c: Cell, op: OpId): Cell
    requires Enabled(c, Do(op))
  {
    var p := c.ops[op];
    if IsClaim(p) then ClaimCommand(c, op)
    else if IsRecovery(p) then RecoveryCommand(c, op)
    else if IsFinish(p) then FinishCommand(c, op)
    else if IsLate(p) then LateCommand(c, op)
    else if IsRetry(p) then RetryCommand(c, op)
    else RenewCommand(c, op)
  }

  function Next(c: Cell, l: Label): Cell
    requires Enabled(c, l)
  {
    match l
    case Start(op, kind) => Goto(c, op, FirstPhase(kind))
    case Do(op) => Command(c, op)
    case Begin(op, finish) => Goto(c, op, if c.ops[op].Acked? then LateStatus(finish) else FinStatus(finish))
    case Crash(op) =>
      Goto(c.(lost := c.lost + if c.ops[op].ClaimMax? || c.ops[op].ClaimMark? then 1 else 0), op, Crashed)
    case Expire => c.(lease := None, expired := c.expired + {c.lease.value})
  }

  ghost predicate Reaches(c: Cell, ls: seq<Label>, c': Cell)
    decreases |ls|
  {
    if ls == [] then c' == c
    else Enabled(c, ls[0]) && Reaches(Next(c, ls[0]), ls[1..], c')
  }

  /** A freshly persisted message. */
  predicate Fresh(c: Cell) {
    && c.status.Pending? && c.attempts == 0 && !c.acknowledged && c.lease.None? && c.ops == map[]
    && c.handed == [] && c.requeued == [] && c.open == {} && c.expired == {} && c.lost == 0 && c.renewed == []
  }

  // ---------- Workers and the lease ----------

  /** Inside a section, or working, on a lease that has not run out. */
  predicate Active(c: Cell, op: OpId) {
    op in c.ops && (InSection(c.ops[op]) || c.ops[op].Working?) && op !in c.expired
  }

  /** Every active operation holds the lease; so at most one operation is active. */
  ghost predicate Held(c: Cell) {
    forall op: OpId :: Active(c, op) ==> c.lease == Some(op)
  }

  predicate RetryStep(c: Cell, l: Label) { l.Do? && l.op in c.ops && IsRetry(c.ops[l.op]) }

  /** The two DELs that do not look at the owner of the lease: a retry's, and that of a finish after an
      acknowledgement. */
  predicate BlindDelete(c: Cell, l: Label) { l.Do? && l.op in c.ops && (c.ops[l.op].RetryDel? || c.ops[l.op].LateDel?) }

  /** A blind delete that takes the lease of an active operation. */
  predicate Deprives(c: Cell, l: Label) { BlindDelete(c, l) && c.lease.Some? && Active(c, c.lease.value) }

  /** The operation is past the one command with which it can take the lease. */
  predicate PastTaking(p: Phase) { !p.ClaimSet? && !p.RecRead? && !p.RecLease? && !p.RecSet? }

  /** Who may hold the lease and whose lease may have run out; this holds in every run. */
  ghost predicate Owned(c: Cell) {
    && (c.lease.Some? ==> c.lease.value in c.ops && PastTaking(c.ops[c.lease.value]) && c.lease.value !in c.expired)
    && (forall op :: op in c.expired ==> op in c.ops && PastTaking(c.ops[op]) && !InSection(c.ops[op]))
  }

  /** A command moves its own operation on; it takes a free lease, gives up its own, or leaves it, unless it is a blind
      delete. */
  predicate LeaseEffect(c: Cell, op: OpId, c': Cell)
    requires op in c.ops
  {
    && op in c'.ops && c'.ops == c.ops[op := c'.ops[op]] && c'.expired == c.expired
    && (InSection(c'.ops[op]) || c'.ops[op].Working? ==>
          (InSection(c.ops[op]) && c'.lease == c.lease) || (c.lease.None? && c'.lease == Some(op)))
    && (PastTaking(c.ops[op]) || c'.lease == Some(op) ==> PastTaking(c'.ops[op]))
    && (c'.lease != c.lease ==>
          || (c.lease.None? && c'.lease == Some(op) && !PastTaking(c.ops[op]))
          || (c'.lease.None? && (InSection(c.ops[op]) || c.ops[op].RetryDel? || c.ops[op].LateDel?)))
  }

  lemma ClaimLeaseEffect(c: Cell, op: OpId)
    requires op in c.ops && IsClaim(c.ops[op]) && Owned(c)
    ensures LeaseEffect(c, op, ClaimCommand(c, op))
  {
  }

  lemma RecoveryLeaseEffect(c: Cell, op: OpId)
    requires op in c.ops && IsRecovery(c.ops[op]) && Owned(c)
    ensures LeaseEffect(c, op, RecoveryCommand(c, op))
  {
  }

  lemma FinishLeaseEffect(c: Cell, op: OpId)
    requires op in c.ops && (IsFinish(c.ops[op]) || IsLate(c.ops[op]))
    ensures IsFinish(c.ops[op]) ==> LeaseEffect(c, op, FinishCommand(c, op))
    ensures IsLate(c.ops[op]) ==> LeaseEffect(c, op, LateCommand(c, op))
  {
  }

  lemma CommandLeaseEffect(c: Cell, op: OpId)
    requires Enabled(c, Do(op)) && Owned(c)
    ensures LeaseEffect(c, op, Command(c, op))
  {
    var p := c.ops[op];
    if IsClaim(p) {
      ClaimLeaseEffect(c, op);
    } else if IsRecovery(p) {
      RecoveryLeaseEffect(c, op);
    } else if IsFinish(p) || IsLate(p) {
      FinishLeaseEffect(c, op);
    }
  }

  lemma EffectKeepsOwned(c: Cell, op: OpId, c': Cell)
    requires op in c.ops && Owned(c) && LeaseEffect(c, op, c')
    ensures Owned(c')
  {
    forall o | o in c'.expired ensures o in c'.ops && PastTaking(c'.ops[o]) && !InSection(c'.ops[o]) {
      assert o != op ==> c'.ops[o] == c.ops[o];
    }
    if c'.lease.Some? && c'.lease.value != op {
      assert c'.ops[c'.lease.value] == c.ops[c.lease.value];
    }
  }

  lemma StepKeepsOwned(c: Cell, l: Label)
    requires Owned(c) && Enabled(c, l)
    ensures Owned(Next(c, l))
  {
    if l.Do? {
      CommandLeaseEffect(c, l.op);
      EffectKeepsOwned(c, l.op, Next(c, l));
    }
  }

  lemma EffectKeepsHeld(c: Cell, op: OpId, c': Cell)
    requires op in c.ops && Owned(c) && Held(c) && LeaseEffect(c, op, c') && !Deprives(c, Do(op))
    ensures Held(c')
  {
    assert InSection(c.ops[op]) ==> Active(c, op);
    forall o | Active(c', o) ensures c'.lease == Some(o) {
      if o != op {
        assert c'.ops[o] == c.ops[o] && Active(c, o);
      }
    }
  }

  lemma OtherStepKeepsHeld(c: Cell, l: Label)
    requires Owned(c) && Held(c) && Enabled(c, l) && !l.Do?
    ensures Held(Next(c, l))
  {
    var c' := Next(c, l);
    forall o | Active(c', o) ensures c'.lease == Some(o) {
      if l.Expire? || o != l.op {
        assert Active(c, o);
      }
    }
  }

  /** Exactly one kind of step takes the lease from an active operation: a blind delete while the lease holder is inside
      its section or working. */
  lemma StepKeepsHeldIff(c: Cell, l: Label)
    requires Owned(c) && Held(c) && Enabled(c, l)
    ensures Held(Next(c, l)) <==> !Deprives(c, l)
  {
    var c' := Next(c, l);
    if Deprives(c, l) {
      var h := c.lease.value;
      assert h != l.op && c'.ops[h] == c.ops[h] && Active(c', h);
    } else if l.Do? {
      CommandLeaseEffect(c, l.op);
      EffectKeepsHeld(c, l.op, c');
    } else {
      OtherStepKeepsHeld(c, l);
    }
  }

  // ---------- The invariant ----------

  /** The HSET of a retry on a message that a worker is processing. */
  predicate StealsMessage(c: Cell, l: Label) {
    l.Do? && l.op in c.ops && c.ops[l.op].RetryWrite? && c.status.Processing?
  }

  predicate Spoils(c: Cell, l: Label) { StealsMessage(c, l) || Deprives(c, l) }

  /** The message is in processing, and by the claim of `op`. */
  predicate ProcessedBy(c: Cell, op: OpId) {
    c.status.Processing? && c.handed != [] && c.handed[|c.handed| - 1] == op
  }

  /** What the lease holder may rely on at its next command. */
  predicate HolderKnows(c: Cell, p: Phase, op: OpId) {
    && (p.ClaimIncr? || p.ClaimMax? || p.ClaimMark? ==> c.status.Pending?)
    && (p.RecWrite? ==> c.status.Processing? && !c.acknowledged && p.requeue == (c.attempts < c.maxAttempts))
    && (p.Working? || p.FinStatus? || p.FinWrite? ==> ProcessedBy(c, op))
    && (p.FinDel? && p.kind.AckIt? ==> ProcessedBy(c, op) && c.acknowledged)
  }

  predicate LeaseKnows(c: Cell) {
    c.lease.Some? && c.lease.value in c.ops ==> HolderKnows(c, c.ops[c.lease.value], c.lease.value)
  }

  /** Acknowledged, and the message not yet completed or failed. */
  predicate Unfinished(p: Phase) { p.Acked? || p.LateStatus? || p.LateWrite? || p == LateDel(AckIt) }

  /** A worker that has acknowledged can rely on the message being left to it. */
  ghost predicate LateKnows(c: Cell) {
    forall op :: op in c.ops && Unfinished(c.ops[op]) ==> ProcessedBy(c, op) && c.acknowledged
  }

  /** While the message is processing the latest hand-out, and no other, is open; otherwise none is. */
  predicate OneOpen(c: Cell) {
    if c.status.Processing? then c.handed != [] && c.open == {c.handed[|c.handed| - 1]} else c.open == {}
  }

  predicate PastHandOut(p: Phase) { p.Working? || IsFinish(p) || p.Acked? || IsLate(p) || p.Done? || p.Crashed? }

  predicate Distinct(s: seq<OpId>) {
    forall i, j :: 0 <= i < j < |s| ==> s[i] != s[j]
  }

  predicate HandedPast(c: Cell) {
    forall i :: 0 <= i < |c.handed| ==> c.handed[i] in c.ops && PastHandOut(c.ops[c.handed[i]])
  }

  predicate RequeuedClosed(c: Cell) {
    forall i :: 0 <= i < |c.requeued| ==> c.requeued[i] in c.handed && c.requeued[i] !in c.open
  }

  /** Claims are handed out once each and requeued at most once each, and no longer open then. */
  predicate Ledger(c: Cell) {
    Distinct(c.handed) && HandedPast(c) && Distinct(c.requeued) && RequeuedClosed(c)
  }

  function InFlight(c: Cell): nat {
    if c.lease.Some? && c.lease.value in c.ops && (c.ops[c.lease.value].ClaimMax? || c.ops[c.lease.value].ClaimMark?) then 1 else 0
  }

  /** Attempts account for hand-outs, crashes after HINCRBY and the claim in flight. */
  predicate Accounted(c: Cell) { c.attempts == |c.handed| + c.lost + InFlight(c) }

  ghost predicate Inv(c: Cell) {
    Owned(c) && Held(c) && LeaseKnows(c) && LateKnows(c) && OneOpen(c) && Ledger(c) && Accounted(c)
  }

  // ---------- What one command does to the message ----------

  /** Nothing but phases, the lease and the lists of expiries and renewals differs. */
  predicate SameMessage(c: Cell, c': Cell) {
    && c'.status == c.status && c'.attempts == c.attempts && c'.maxAttempts == c.maxAttempts
    && c'.acknowledged == c.acknowledged && c'.handed == c.handed && c'.requeued == c.requeued && c'.open == c.open
    && c'.lost == c.lost
  }

  /** The commands that write the message. */
  predicate Writes(p: Phase) { p.ClaimIncr? || p.ClaimMark? || p.RecWrite? || p.FinWrite? || p.LateWrite? || p.RetryWrite? }

  /** What a command that does not write the message does at most. */
  predicate ReadEffect(c: Cell, op: OpId, c': Cell)
    requires op in c.ops
  {
    var p := c.ops[op];
    && SameMessage(c, c') && op in c'.ops
    && (PastHandOut(p) ==> PastHandOut(c'.ops[op]))
    && (Unfinished(c'.ops[op]) ==> Unfinished(p) || p == FinDel(AckIt))
    && (InSection(c'.ops[op]) && (InSection(p) ==> HolderKnows(c, p, op)) ==> HolderKnows(c, c'.ops[op], op))
    && (c'.ops[op].ClaimMax? || c'.ops[op].ClaimMark? <==> p.ClaimMax?)
    && !c'.ops[op].Working?
  }

  lemma ClaimReads(c: Cell, op: OpId)
    requires op in c.ops && IsClaim(c.ops[op]) && !Writes(c.ops[op])
    ensures ReadEffect(c, op, ClaimCommand(c, op))
  {
  }

  lemma RecoveryReads(c: Cell, op: OpId)
    requires op in c.ops && IsRecovery(c.ops[op]) && !Writes(c.ops[op])
    ensures ReadEffect(c, op, RecoveryCommand(c, op))
  {
  }

  lemma FinishReads(c: Cell, op: OpId)
    requires op in c.ops && IsFinish(c.ops[op]) && !Writes(c.ops[op])
    ensures ReadEffect(c, op, FinishCommand(c, op))
  {
  }

  lemma ReadsOnly(c: Cell, op: OpId)
    requires Enabled(c, Do(op)) && !Writes(c.ops[op])
    ensures ReadEffect(c, op, Command(c, op))
  {
    if IsClaim(c.ops[op]) {
      ClaimReads(c, op);
    } else if IsRecovery(c.ops[op]) {
      RecoveryReads(c, op);
    } else if IsFinish(c.ops[op]) {
      FinishReads(c, op);
    }
  }

  lemma StillPast(c: Cell, c': Cell, op: OpId)
    requires HandedPast(c) && c'.handed == c.handed && op in c'.ops && c'.ops == c.ops[op := c'.ops[op]]
    requires op in c.ops && PastHandOut(c.ops[op]) ==> PastHandOut(c'.ops[op])
    ensures HandedPast(c')
  {
    forall i | 0 <= i < |c'.handed| ensures c'.handed[i] in c'.ops && PastHandOut(c'.ops[c'.handed[i]]) {
      assert c.handed[i] in c.ops && PastHandOut(c.ops[c.handed[i]]);
    }
  }

  lemma ReadKeepsLedger(c: Cell, op: OpId)
    requires Owned(c) && Enabled(c, Do(op)) && !Writes(c.ops[op]) && OneOpen(c) && Ledger(c)
    ensures OneOpen(Command(c, op)) && Ledger(Command(c, op))
  {
    ReadsOnly(c, op);
    CommandLeaseEffect(c, op);
    StillPast(c, Command(c, op), op);
  }

  lemma ReadKeepsKnowledge(c: Cell, op: OpId, c': Cell)
    requires op in c.ops && Owned(c) && Held(c) && LeaseKnows(c) && LateKnows(c) && Accounted(c)
    requires LeaseEffect(c, op, c') && ReadEffect(c, op, c') && !Deprives(c, Do(op))
    requires HasCommand(c.ops[op]) && !Writes(c.ops[op])
    ensures LeaseKnows(c') && LateKnows(c') && Accounted(c')
  {
    assert InSection(c.ops[op]) ==> Active(c, op);
    forall o | o in c'.ops && Unfinished(c'.ops[o]) ensures ProcessedBy(c', o) && c'.acknowledged {
      assert o != op ==> c'.ops[o] == c.ops[o];
    }
    if c'.lease.Some? && c'.lease.value != op {
      assert c'.ops[c'.lease.value] == c.ops[c.lease.value];
    }
  }

  lemma ReadKeepsInv(c: Cell, op: OpId)
    requires Inv(c) && Enabled(c, Do(op)) && !Writes(c.ops[op]) && !Deprives(c, Do(op))
    ensures Inv(Command(c, op))
  {
    var c' := Command(c, op);
    StepKeepsOwned(c, Do(op));
    StepKeepsHeldIff(c, Do(op));
    assert InSection(c.ops[op]) ==> Active(c, op);
    ReadsOnly(c, op);
    CommandLeaseEffect(c, op);
    ReadKeepsLedger(c, op);
    ReadKeepsKnowledge(c, op, c');
  }

  // ---------- The commands that write ----------

  /** Nobody waits to finish late unless the message is in processing and acknowledged. */
  lemma NoLateWorker(c: Cell, c': Cell, op: OpId)
    requires LateKnows(c) && op in c.ops && op in c'.ops && c'.ops == c.ops[op := c'.ops[op]] && !Unfinished(c'.ops[op])
    requires !c.status.Processing? || !c.acknowledged || ProcessedBy(c, op)
    ensures LateKnows(c')
  {
    forall o | o in c'.ops ensures !Unfinished(c'.ops[o]) {
      if o != op {
        assert c'.ops[o] == c.ops[o];
      }
    }
  }

  lemma CountKeepsInv(c: Cell, op: OpId)
    requires Inv(c) && op in c.ops && c.ops[op].ClaimIncr?
    ensures Inv(Command(c, op))
  {
    var c' := Command(c, op);
    StepKeepsOwned(c, Do(op));
    StepKeepsHeldIff(c, Do(op));
    assert Active(c, op);
    NoLateWorker(c, c', op);
    StillPast(c, c', op);
  }

  lemma HandOutKeepsLedger(c: Cell, op: OpId)
    requires Ledger(c) && op in c.ops && c.ops[op].ClaimMark?
    ensures Ledger(ClaimCommand(c, op))
  {
    var c' := ClaimCommand(c, op);
    forall i | 0 <= i < |c.handed| ensures c.handed[i] != op {
      assert PastHandOut(c.ops[c.handed[i]]);
    }
    forall i | 0 <= i < |c'.handed| ensures c'.handed[i] in c'.ops && PastHandOut(c'.ops[c'.handed[i]]) {
      if i < |c.handed| {
        assert c'.handed[i] == c.handed[i] && PastHandOut(c.ops[c.handed[i]]);
      }
    }
    forall i | 0 <= i < |c'.requeued| ensures c'.requeued[i] in c'.handed && c'.requeued[i] !in c'.open {
      assert c.requeued[i] in c.handed && c.requeued[i] !in c.open;
    }
  }

  lemma HandOutKeepsInv(c: Cell, op: OpId)
    requires Inv(c) && op in c.ops && c.ops[op].ClaimMark?
    ensures Inv(Command(c, op))
  {
    StepKeepsOwned(c, Do(op));
    StepKeepsHeldIff(c, Do(op));
    assert Active(c, op);
    NoLateWorker(c, Command(c, op), op);
    HandOutKeepsLedger(c, op);
  }

  lemma RequeueKeepsLedger(c: Cell, op: OpId)
    requires Ledger(c) && OneOpen(c) && op in c.ops && c.ops[op].RecWrite? && c.status.Processing?
    ensures Ledger(RecoveryCommand(c, op))
  {
    var c' := RecoveryCommand(c, op);
    var last := c.handed[|c.handed| - 1];
    StillPast(c, c', op);
    forall i | 0 <= i < |c.requeued| ensures c.requeued[i] in c.handed && c.requeued[i] != last {
      assert c.requeued[i] !in c.open;
    }
    forall i | 0 <= i < |c'.requeued| ensures c'.requeued[i] in c'.handed && c'.requeued[i] !in c'.open {
      assert i < |c.requeued| ==> c'.requeued[i] == c.requeued[i];
    }
  }

  lemma RequeueKeepsInv(c: Cell, op: OpId)
    requires Inv(c) && op in c.ops && c.ops[op].RecWrite?
    ensures Inv(Command(c, op))
  {
    StepKeepsOwned(c, Do(op));
    StepKeepsHeldIff(c, Do(op));
    assert Active(c, op);
    NoLateWorker(c, Command(c, op), op);
    RequeueKeepsLedger(c, op);
  }

  lemma FinishedKeepsLedger(c: Cell, op: OpId, kind: Finish, p: Phase)
    requires Ledger(c) && OneOpen(c) && ProcessedBy(c, op) && op in c.ops && PastHandOut(p)
    ensures Ledger(Goto(Finished(c, op, kind), op, p)) && OneOpen(Goto(Finished(c, op, kind), op, p))
  {
    var c' := Goto(Finished(c, op, kind), op, p);
    StillPast(c, c', op);
    forall i | 0 <= i < |c'.requeued| ensures c'.requeued[i] in c'.handed && c'.requeued[i] !in c'.open {
      assert c.requeued[i] in c.handed && c.requeued[i] !in c.open;
    }
  }

  lemma FinishKeepsInv(c: Cell, op: OpId)
    requires Inv(c) && op in c.ops && c.ops[op].FinWrite?
    ensures Inv(Command(c, op))
  {
    var kind := c.ops[op].kind;
    StepKeepsOwned(c, Do(op));
    StepKeepsHeldIff(c, Do(op));
    assert Active(c, op);
    NoLateWorker(c, Command(c, op), op);
    FinishedKeepsLedger(c, op, kind, FinDel(kind));
  }

  /** A late finish writes without a lease; whoever holds it is not concerned. */
  lemma LateFinishKeepsInv(c: Cell, op: OpId)
    requires Inv(c) && op in c.ops && c.ops[op].LateWrite?
    ensures Inv(Command(c, op))
  {
    var kind, c' := c.ops[op].kind, Command(c, op);
    StepKeepsOwned(c, Do(op));
    StepKeepsHeldIff(c, Do(op));
    FinishedKeepsLedger(c, op, kind, LateDel(kind));
    forall o | o in c'.ops && Unfinished(c'.ops[o]) ensures ProcessedBy(c', o) && c'.acknowledged {
      assert o != op ==> c'.ops[o] == c.ops[o] && ProcessedBy(c, o);
    }
    if c.lease.Some? && c.lease.value != op {
      assert c'.ops[c.lease.value] == c.ops[c.lease.value];
    }
  }

  /** A retry's HSET on a message that nobody processes. */
  lemma RetryKeepsInv(c: Cell, op: OpId)
    requires Inv(c) && op in c.ops && c.ops[op].RetryWrite? && !c.status.Processing?
    ensures Inv(Command(c, op))
  {
    var c' := Command(c, op);
    StepKeepsOwned(c, Do(op));
    StepKeepsHeldIff(c, Do(op));
    NoLateWorker(c, c', op);
    StillPast(c, c', op);
    if c.lease.Some? && c.lease.value != op {
      assert c'.ops[c.lease.value] == c.ops[c.lease.value];
    }
  }

  lemma CommandKeepsInv(c: Cell, op: OpId)
    requires Inv(c) && Enabled(c, Do(op)) && !Spoils(c, Do(op))
    ensures Inv(Command(c, op))
  {
    var p := c.ops[op];
    if !Writes(p) {
      ReadKeepsInv(c, op);
    } else if p.ClaimIncr? {
      CountKeepsInv(c, op);
    } else if p.ClaimMark? {
      HandOutKeepsInv(c, op);
    } else if p.RecWrite? {
      RequeueKeepsInv(c, op);
    } else if p.FinWrite? {
      FinishKeepsInv(c, op);
    } else if p.LateWrite? {
      LateFinishKeepsInv(c, op);
    } else {
      RetryKeepsInv(c, op);
    }
  }

  lemma OtherStepKeepsKnowledge(c: Cell, l: Label)
    requires Owned(c) && LeaseKnows(c) && LateKnows(c) && Enabled(c, l) && !l.Do?
    ensures LeaseKnows(Next(c, l)) && LateKnows(Next(c, l))
  {
    var c' := Next(c, l);
    forall o | o in c'.ops && Unfinished(c'.ops[o]) ensures ProcessedBy(c', o) && c'.acknowledged {
      assert l.Expire? || o != l.op ==> c'.ops[o] == c.ops[o];
    }
  }

  lemma OtherStepKeepsAccounts(c: Cell, l: Label)
    requires Held(c) && Owned(c) && OneOpen(c) && Ledger(c) && Accounted(c) && Enabled(c, l) && !l.Do?
    ensures OneOpen(Next(c, l)) && Ledger(Next(c, l)) && Accounted(Next(c, l))
  {
    if !l.Expire? {
      StillPast(c, Next(c, l), l.op);
      assert l.op in c.ops && InSection(c.ops[l.op]) ==> Active(c, l.op);
    }
  }

  lemma OtherStepKeepsInv(c: Cell, l: Label)
    requires Inv(c) && Enabled(c, l) && !l.Do?
    ensures Inv(Next(c, l))
  {
    StepKeepsOwned(c, l);
    StepKeepsHeldIff(c, l);
    OtherStepKeepsKnowledge(c, l);
    OtherStepKeepsAccounts(c, l);
  }

  /** The exact condition under which a step keeps the invariant: only a retry that steals the message and a blind delete
      that takes the lease of an active operation break it. */
  lemma StepKeepsInvIff(c: Cell, l: Label)
    requires Inv(c) && Enabled(c, l)
    ensures Inv(Next(c, l)) <==> !Spoils(c, l)
  {
    if Deprives(c, l) {
      StepKeepsHeldIff(c, l);
    } else if StealsMessage(c, l) {
      assert !OneOpen(Next(c, l));
    } else if l.Do? {
      CommandKeepsInv(c, l.op);
    } else {
      OtherStepKeepsInv(c, l);
    }
  }

  // ---------- Whole runs ----------

  ghost predicate Possible(c: Cell, ls: seq<Label>)
    decreases |ls|
  {
    ls == [] || (Enabled(c, ls[0]) && Possible(Next(c, ls[0]), ls[1..]))
  }

  ghost predicate NeverDeprives(c: Cell, ls: seq<Label>)
    requires Possible(c, ls)
    decreases |ls|
  {
    ls != [] ==> !Deprives(c, ls[0]) && NeverDeprives(Next(c, ls[0]), ls[1..])
  }

  ghost predicate HeldThroughout(c: Cell, ls: seq<Label>)
    requires Possible(c, ls)
    decreases |ls|
  {
    Held(c) && (ls != [] ==> HeldThroughout(Next(c, ls[0]), ls[1..]))
  }

  /** Over every run, retries, late finishes, crashes and expiries included: every active operation holds the lease
      throughout exactly when no blind delete takes it from one. */
  lemma {:induction false} RunHeldIff(c: Cell, ls: seq<Label>)
    requires Possible(c, ls) && Owned(c) && Held(c)
    ensures HeldThroughout(c, ls) <==> NeverDeprives(c, ls)
    decreases |ls|
  {
    if ls != [] {
      StepKeepsOwned(c, ls[0]);
      StepKeepsHeldIff(c, ls[0]);
      if Held(Next(c, ls[0])) {
        RunHeldIff(Next(c, ls[0]), ls[1..]);
      }
    }
  }

  /** No retry of the run steals the message, and no blind delete deprives an active operation. */
  ghost predicate Unspoilt(c: Cell, ls: seq<Label>)
    requires Possible(c, ls)
    decreases |ls|
  {
    ls != [] ==> !Spoils(c, ls[0]) && Unspoilt(Next(c, ls[0]), ls[1..])
  }

  ghost predicate InvThroughout(c: Cell, ls: seq<Label>)
    requires Possible(c, ls)
    decreases |ls|
  {
    Inv(c) && (ls != [] ==> InvThroughout(Next(c, ls[0]), ls[1..]))
  }

  /** The same for the whole invariant: it holds throughout exactly when nothing spoils it. */
  lemma {:induction false} RunKeepsInvIff(c: Cell, ls: seq<Label>)
    requires Possible(c, ls) && Inv(c)
    ensures InvThroughout(c, ls) <==> Unspoilt(c, ls)
    decreases |ls|
  {
    if ls != [] {
      StepKeepsInvIff(c, ls[0]);
      if Inv(Next(c, ls[0])) {
        RunKeepsInvIff(Next(c, ls[0]), ls[1..]);
      }
    }
  }

  ghost predicate ReachesUnspoilt(c: Cell, ls: seq<Label>, c': Cell) {
    Possible(c, ls) && Reaches(c, ls, c') && Unspoilt(c, ls)
  }

  lemma FreshInv(c: Cell)
    requires Fresh(c)
    ensures Inv(c)
  {
  }

  lemma {:induction false} RunKeepsInv(c: Cell, ls: seq<Label>, c': Cell)
    requires Inv(c) && ReachesUnspoilt(c, ls, c')
    ensures Inv(c')
    decreases |ls|
  {
    if ls != [] {
      StepKeepsInvIff(c, ls[0]);
      RunKeepsInv(Next(c, ls[0]), ls[1..], c');
    }
  }

  // ---------- Main results ----------

  /** A worker that has been handed the message and still works on it or finishes it, on a lease that has not run out. */
  predicate Running(c: Cell, w: OpId) {
    w in c.ops && (c.ops[w].Working? || IsFinish(c.ops[w])) && w !in c.expired
  }

  /** Step `l` hands the message out while another worker is running. */
  ghost predicate HandsOutTwice(c: Cell, l: Label) {
    l.Do? && l.op in c.ops && c.ops[l.op].ClaimMark? && exists w: OpId :: w != l.op && Running(c, w)
  }

  lemma HeldHandsOutOnce(c: Cell, l: Label)
    requires Owned(c) && Held(c) && Enabled(c, l)
    ensures !HandsOutTwice(c, l)
  {
    if l.Do? && c.ops[l.op].ClaimMark? {
      assert Active(c, l.op);
      forall w: OpId | w != l.op ensures !Running(c, w) {
        assert Running(c, w) ==> Active(c, w);
      }
    }
  }

  /** In every unspoilt interleaving, crashes and expiries included: at most one operation is inside a section or working
      on an unexpired lease, no hand-out meets a running worker, at most one hand-out is open and then the message is
      in processing, claims are handed out and requeued at most once each, and attempts are exactly the hand-outs, the
      claims that crashed between HINCRBY and HSET, and the claim that is between the two. */
  lemma LeaseProtocolSafe(c: Cell, ls: seq<Label>, c': Cell)
    requires Fresh(c) && ReachesUnspoilt(c, ls, c')
    ensures forall a: OpId, b: OpId :: Active(c', a) && Active(c', b) ==> a == b
    ensures forall l :: Enabled(c', l) ==> !HandsOutTwice(c', l)
    ensures |c'.open| <= 1 && (c'.open != {} <==> c'.status.Processing?)
    ensures Distinct(c'.handed) && Distinct(c'.requeued)
    ensures forall i :: 0 <= i < |c'.requeued| ==> c'.requeued[i] in c'.handed && c'.requeued[i] !in c'.open
    ensures c'.attempts == |c'.handed| + c'.lost + InFlight(c')
  {
    FreshInv(c);
    RunKeepsInv(c, ls, c');
    forall l | Enabled(c', l) ensures !HandsOutTwice(c', l) {
      HeldHandsOutOnce(c', l);
    }
  }

  /** A recovery writes only while the worker it takes the message from is not active any more: its lease ran out, or it
      crashed. That worker's claim is the one open hand-out and was never requeued before, and the test the recovery made
      under its own claim still holds. */
  lemma RecoveryWritesOrphansOnly(c: Cell, ls: seq<Label>, c': Cell, op: OpId)
    requires Fresh(c) && ReachesUnspoilt(c, ls, c') && op in c'.ops && c'.ops[op].RecWrite?
    ensures c'.lease == Some(op) && c'.handed != []
    ensures
      var claim := c'.handed[|c'.handed| - 1];
      && claim != op && !Active(c', claim) && claim !in c'.requeued && c'.open == {claim}
      && Next(c', Do(op)).requeued == c'.requeued + [claim] && Next(c', Do(op)).open == {}
    ensures c'.status.Processing? && !c'.acknowledged && c'.ops[op].requeue == (c'.attempts < c'.maxAttempts)
  {
    FreshInv(c);
    RunKeepsInv(c, ls, c');
    assert Active(c', op);
    var last := |c'.handed| - 1;
    assert PastHandOut(c'.ops[c'.handed[last]]);
    assert RequeuedClosed(c');
  }

  // ---------- How often a message is handed out ----------

  function Allowance(c: Cell): nat { if c.maxAttempts < 1 then 1 else c.maxAttempts }

  /** Hand-outs stay within the allowance, and a pending message has one left. */
  predicate WithinAllowance(c: Cell) {
    |c.handed| <= Allowance(c) && (c.status.Pending? ==> |c.handed| < Allowance(c))
  }

  /** The HSET of a retry whose reading of the attempts is out of date: the allowance is used up. */
  predicate Overdraws(c: Cell, l: Label) {
    l.Do? && l.op in c.ops && c.ops[l.op].RetryWrite? && |c.handed| >= Allowance(c)
  }

  lemma RecoveryStaysWithin(c: Cell, op: OpId)
    requires Inv(c) && WithinAllowance(c) && op in c.ops && c.ops[op].RecWrite?
    ensures WithinAllowance(Command(c, op))
  {
    assert Active(c, op);
  }

  lemma QuietStaysWithin(c: Cell, op: OpId)
    requires WithinAllowance(c) && Enabled(c, Do(op))
    requires !c.ops[op].RecWrite? && !c.ops[op].RetryWrite? && (c.ops[op].ClaimMark? ==> c.status.Pending?)
    ensures WithinAllowance(Command(c, op))
  {
    if !Writes(c.ops[op]) {
      ReadsOnly(c, op);
    }
  }

  /** As long as nothing is spoilt, hand-outs leave the allowance exactly through such a retry. */
  lemma StepWithinAllowanceIff(c: Cell, l: Label)
    requires Inv(c) && WithinAllowance(c) && Enabled(c, l) && !StealsMessage(c, l)
    ensures WithinAllowance(Next(c, l)) <==> !Overdraws(c, l)
  {
    if l.Do? {
      var p := c.ops[l.op];
      assert p.ClaimMark? ==> Active(c, l.op);
      if p.RecWrite? {
        RecoveryStaysWithin(c, l.op);
      } else if !p.RetryWrite? {
        QuietStaysWithin(c, l.op);
      }
    }
  }

  ghost predicate NeverOverdraws(c: Cell, ls: seq<Label>)
    requires Possible(c, ls)
    decreases |ls|
  {
    ls != [] ==> !Overdraws(c, ls[0]) && NeverOverdraws(Next(c, ls[0]), ls[1..])
  }

  lemma {:induction false} RunStaysWithin(c: Cell, ls: seq<Label>, c': Cell)
    requires Inv(c) && WithinAllowance(c) && ReachesUnspoilt(c, ls, c') && NeverOverdraws(c, ls)
    ensures WithinAllowance(c')
    decreases |ls|
  {
    if ls != [] {
      StepKeepsInvIff(c, ls[0]);
      StepWithinAllowanceIff(c, ls[0]);
      RunStaysWithin(Next(c, ls[0]), ls[1..], c');
    }
  }

  /** Hand-outs never exceed the allowance in an unspoilt run in which every retry writes while some of it is left. */
  lemma HandOutsWithinAllowance(c: Cell, ls: seq<Label>, c': Cell)
    requires Fresh(c) && ReachesUnspoilt(c, ls, c') && NeverOverdraws(c, ls)
    ensures |c'.handed| <= Allowance(c')
  {
    FreshInv(c);
    RunStaysWithin(c, ls, c');
  }

  // ---------- What a status stands for ----------

  predicate Finishes(p: Phase, kind: Finish) {
    (p.FinStatus? || p.FinWrite? || p.LateStatus? || p.LateWrite?) && p.kind == kind
  }

  /** The trace that a finish of this kind leaves on the message; a recovery fails it only when its attempts are gone. */
  predicate Shows(c: Cell, kind: Finish) {
    match kind
    case AckIt => c.acknowledged
    case CompleteIt => c.status.Completed?
    case FailIt => c.status.Failed? && c.attempts < c.maxAttempts
  }

  /** No operation is about to leave that trace, and none has. */
  ghost predicate NotYet(c: Cell, kind: Finish) {
    && !Shows(c, kind)
    && forall op :: op in c.ops ==> !Finishes(c.ops[op], kind) && (c.ops[op] == RecWrite(false) ==> c.attempts >= c.maxAttempts)
  }

  predicate NotYetEffect(c: Cell, op: OpId, c': Cell, kind: Finish)
    requires op in c.ops
  {
    && op in c'.ops && c'.ops == c.ops[op := c'.ops[op]] && c'.attempts >= c.attempts && c'.maxAttempts == c.maxAttempts
    && !Shows(c', kind) && !Finishes(c'.ops[op], kind)
    && (c'.ops[op] == RecWrite(false) ==> c'.attempts >= c'.maxAttempts)
  }

  lemma ClaimNotYet(c: Cell, op: OpId, kind: Finish)
    requires op in c.ops && IsClaim(c.ops[op]) && !Shows(c, kind)
    ensures NotYetEffect(c, op, ClaimCommand(c, op), kind)
  {
  }

  lemma RecoveryNotYet(c: Cell, op: OpId, kind: Finish)
    requires op in c.ops && IsRecovery(c.ops[op]) && !Shows(c, kind)
    requires c.ops[op] == RecWrite(false) ==> c.attempts >= c.maxAttempts
    ensures NotYetEffect(c, op, RecoveryCommand(c, op), kind)
  {
  }

  lemma FinishNotYet(c: Cell, op: OpId, kind: Finish)
    requires op in c.ops && !Shows(c, kind) && !Finishes(c.ops[op], kind)
    ensures IsFinish(c.ops[op]) ==> NotYetEffect(c, op, FinishCommand(c, op), kind)
    ensures IsLate(c.ops[op]) ==> NotYetEffect(c, op, LateCommand(c, op), kind)
  {
  }

  lemma NotYetStep(c: Cell, l: Label, kind: Finish)
    requires NotYet(c, kind) && Enabled(c, l) && !(l.Begin? && l.finish == kind)
    ensures NotYet(Next(c, l), kind)
  {
    if l.Do? {
      var p := c.ops[l.op];
      if IsClaim(p) {
        ClaimNotYet(c, l.op, kind);
      } else if IsRecovery(p) {
        RecoveryNotYet(c, l.op, kind);
      } else if IsFinish(p) || IsLate(p) {
        FinishNotYet(c, l.op, kind);
      }
    }
  }

  lemma {:induction false} NotYetRun(c: Cell, ls: seq<Label>, c': Cell, kind: Finish)
    requires NotYet(c, kind) && Reaches(c, ls, c')
    requires forall i :: 0 <= i < |ls| ==> !(ls[i].Begin? && ls[i].finish == kind)
    ensures NotYet(c', kind)
    decreases |ls|
  {
    if ls != [] {
      var rest := ls[1..];
      forall i | 0 <= i < |rest| ensures !(rest[i].Begin? && rest[i].finish == kind) {
        assert rest[i] == ls[i + 1];
      }
      assert !(ls[0].Begin? && ls[0].finish == kind);
      NotYetStep(c, ls[0], kind);
      NotYetRun(Next(c, ls[0]), rest, c', kind);
    }
  }

  /** In every run: a message is acknowledged or completed only after some worker began to acknowledge or complete it, and
      failed with attempts left only after some worker began to fail it. */
  lemma StatusNeedsFinish(c: Cell, ls: seq<Label>, c': Cell, kind: Finish)
    requires Fresh(c) && Reaches(c, ls, c')
    requires match kind
      case AckIt => c'.acknowledged
      case CompleteIt => c'.status.Completed?
      case FailIt => c'.status.Failed? && c'.attempts < c'.maxAttempts
    ensures exists i :: 0 <= i < |ls| && ls[i].Begin? && ls[i].finish == kind
  {
    if forall i :: 0 <= i < |ls| ==> !(ls[i].Begin? && ls[i].finish == kind) {
      NotYetRun(c, ls, c', kind);
    }
  }

  // ---------- Retries of an exhausted message ----------

  /** No retry has read attempts below the limit. */
  ghost predicate Exhausted(c: Cell) {
    && c.attempts >= c.maxAttempts
    && forall op :: op in c.ops ==>
      !c.ops[op].RetryWrite? && !c.ops[op].RetryDel? && (c.ops[op].RetryMax? ==> c.ops[op].seen >= c.maxAttempts)
  }

  lemma NoNewRetry(c: Cell, op: OpId)
    requires Enabled(c, Do(op)) && !IsRetry(c.ops[op])
    ensures op in Command(c, op).ops && Command(c, op).ops == c.ops[op := Command(c, op).ops[op]]
    ensures !IsRetry(Command(c, op).ops[op])
    ensures Command(c, op).attempts >= c.attempts && Command(c, op).maxAttempts == c.maxAttempts
  {
  }

  lemma ExhaustedStep(c: Cell, l: Label)
    requires Exhausted(c) && Enabled(c, l)
    ensures Exhausted(Next(c, l))
  {
    if l.Do? && !IsRetry(c.ops[l.op]) {
      NoNewRetry(c, l.op);
    }
  }

  /** Once the attempts are used up and no retry is past its check, no retry ever writes the message or deletes its lease. */
  lemma {:induction false} ExhaustedIsNeverRetried(c: Cell, ls: seq<Label>, c': Cell, op: OpId)
    requires Exhausted(c) && Reaches(c, ls, c') && op in c'.ops
    ensures !c'.ops[op].RetryWrite? && !c'.ops[op].RetryDel?
    decreases |ls|
  {
    if ls != [] {
      ExhaustedStep(c, ls[0]);
      ExhaustedIsNeverRetried(Next(c, ls[0]), ls[1..], c', op);
    }
  }
}
