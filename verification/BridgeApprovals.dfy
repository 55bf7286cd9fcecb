/** Multi-signature approval and execution of cross-chain bridges, statement by statement
    (src/blockchain/services/cross-chain-bridge.service.ts, src/blockchain/entities/bridge-approval.entity.ts).

    Any number of approval calls on any number of bridges interleave at the level of single database statements,
    under read-committed isolation: a transaction sees committed rows and its own writes; an insert waits for a
    concurrent insert of the same unique key; an update waits for the row lock and keeps it until commit or
    abort. After its commit the call that flipped the status executes the bridge outside any transaction, one save
    or withdrawal at a time. Every call may abort or crash at any point. */
module BridgeApprovals {
  import opened Common

  datatype BridgeId = BridgeId(uuid: string)
  datatype Signer = Signer(userId: string)
  type CallId = nat

  datatype BridgeStatus =
    Initiated | SourceConfirmed | BridgeProcessing | DestinationPending | Completed | Failed | Refunded

  datatype Network = Stellar | Ethereum

  datatype Row = Row(status: BridgeStatus, approvals: nat, threshold: int, source: Network, destination: Network)

  datatype Approval = Approval(bridge: BridgeId, signer: Signer)

  /** The next statement of a call. */
  datatype Phase =
    | Find | Insert | Increment | Reread | Flip | Commit(execute: bool)          // inside the transaction
    | SavePending | Pay | SaveCompleted | SaveFailed | SendRefund | SaveRefunded  // executeBridge, refundBridge
    | Over

  /** `row` is the call's own version of the bridge: uncommitted inside the transaction, a stale copy after it. */
  datatype Call = Call(bridge: BridgeId, signer: Signer, phase: Phase, row: Row)

  /** What happened outside the database: which call has committed the flip and is `due` to execute the bridge, how many
      such calls crashed first, executions started, payments to the destination and to the source, and payments whose
      withdrawal nevertheless threw. */
  datatype Tally = Tally(due: Option<CallId>, abandoned: nat, started: nat, paid: nat, refunded: nat, sentButThrew: nat)

  const NOTHING := Tally(None, 0, 0, 0, 0, 0)

  datatype State = State(
    rows: map<BridgeId, Row>, approvals: set<Approval>, locks: map<BridgeId, CallId>,
    calls: map<CallId, Call>, tally: map<BridgeId, Tally>)

  predicate Awaiting(st: BridgeStatus) { st.Initiated? || st.SourceConfirmed? }

  predicate HoldsLock(p: Phase) { p.Reread? || p.Flip? || p.Commit? }

  /** The call has inserted its approval and not yet committed it. */
  predicate HasInserted(p: Phase) { p.Increment? || HoldsLock(p) }

  predicate Executing(p: Phase) {
    p.SavePending? || p.Pay? || p.SaveCompleted? || p.SaveFailed? || p.SendRefund? || p.SaveRefunded?
  }

  predicate Saves(p: Phase) { p.SavePending? || p.SaveCompleted? || p.SaveFailed? || p.SaveRefunded? }

  /** How a save or a withdrawal went. A withdrawal that throws may have sent the money all the same. */
  datatype Outcome = Ok | Threw(sent: bool)

  datatype Label =
    | Initiate(bridge: BridgeId, threshold: int, source: Network, destination: Network)
    | Approve(call: CallId, approval: Approval)
    | Statement(call: CallId, outcome: Outcome)
    | Abort(call: CallId)

  /** Somebody else's uncommitted insert of the same unique key. */
  ghost predicate InsertBlocked(s: State, c: CallId)
    requires c in s.calls
  {
    exists d :: d in s.calls && d != c && HasInserted(s.calls[d].phase)
      && s.calls[d].bridge == s.calls[c].bridge && s.calls[d].signer == s.calls[c].signer
  }

  ghost predicate Enabled(s: State, l: Label) {
    match l
    case Initiate(b, _, _, _) => b !in s.rows
    case Approve(c, _) => c !in s.calls
    case Statement(c, outcome) =>
      && c in s.calls && !s.calls[c].phase.Over?
      && (s.calls[c].phase.Insert? ==> !InsertBlocked(s, c))
      && (s.calls[c].phase.Increment? || Saves(s.calls[c].phase) ==> s.calls[c].bridge !in s.locks)
    case Abort(c) => c in s.calls && !s.calls[c].phase.Over?
  }

  function At(s: State, c: CallId, p: Phase): State
    requires c in s.calls
  {
    s.(calls := s.calls[c := s.calls[c].(phase := p)])
  }

  /** Rollback: the call's own versions vanish with it, and its lock is released. */
  function Rollback(s: State, c: CallId): State
    requires c in s.calls
  {
    var b := s.calls[c].bridge;
    At(s.(locks := if HoldsLock(s.calls[c].phase) then s.locks - {b} else s.locks), c, Over)
  }

  /** A crash after the commit and before the first statement of `executeBridge`. */
  function Abandon(s: State, c: CallId): State
    requires c in s.calls
  {
    var b := s.calls[c].bridge;
    var t := TallyOf(s, b);
    At(s.(tally := s.tally[b := t.(due := None, abandoned := t.abandoned + 1)]), c, Over)
  }

  function TallyOf(s: State, b: BridgeId): Tally { if b in s.tally then s.tally[b] else NOTHING }

  /** A save writes the whole stale copy, with the new status, over the row. */
  function Save(s: State, c: CallId, status: BridgeStatus, next: Phase): State
    requires c in s.calls
  {
    var call := s.calls[c];
    var row := call.row.(status := status);
    s.(rows := s.rows[call.bridge := row], calls := s.calls[c := call.(phase := next, row := row)])
  }

  /** The statements of the approval transaction. */
  function Transact(s: State, c: CallId): State
    requires c in s.calls && !Executing(s.calls[c].phase) && !s.calls[c].phase.Over?
  {
    var call := s.calls[c];
    var b := call.bridge;
    match call.phase
    case Find => if b in s.rows && Awaiting(s.rows[b].status) then At(s, c, Insert) else Rollback(s, c)
    case Insert => if Approval(b, call.signer) in s.approvals then Rollback(s, c) else At(s, c, Increment)
    case Increment =>
      if b in s.rows then
        var row := s.rows[b].(approvals := s.rows[b].approvals + 1);
        s.(locks := s.locks[b := c], calls := s.calls[c := call.(phase := Reread, row := row)])
      else Rollback(s, c)
    case Reread => At(s, c, if call.row.approvals < call.row.threshold then Commit(false) else Flip)
    case Flip =>
      if Awaiting(call.row.status) then
        s.(calls := s.calls[c := call.(phase := Commit(true), row := call.row.(status := BridgeProcessing))])
      else At(s, c, Commit(false))
    case Commit(execute) =>
      var t := TallyOf(s, b);
      s.(rows := s.rows[b := call.row],
         approvals := s.approvals + {Approval(b, call.signer)},
         locks := s.locks - {b},
         tally := if execute then s.tally[b := t.(due := Some(c))] else s.tally,
         calls := s.calls[c := call.(phase := if execute then SavePending else Over)])
  }

  /** One save or withdrawal of executeBridge and refundBridge. */
  function Execute(s: State, c: CallId, outcome: Outcome): State
    requires c in s.calls && Executing(s.calls[c].phase)
  {
    var call := s.calls[c];
    var b := call.bridge;
    var t := TallyOf(s, b);
    match call.phase
    case SavePending =>
      var begun := s.(tally := s.tally[b := t.(due := None, started := t.started + 1)]);
      if outcome.Ok? then Save(begun, c, DestinationPending, Pay) else At(begun, c, SaveFailed)
    case Pay =>
      if !call.row.destination.Stellar? then At(s, c, SaveCompleted)
      else if outcome.Ok? then At(s.(tally := s.tally[b := t.(paid := t.paid + 1)]), c, SaveCompleted)
      else if outcome.sent then
        At(s.(tally := s.tally[b := t.(paid := t.paid + 1, sentButThrew := t.sentButThrew + 1)]), c, SaveFailed)
      else At(s, c, SaveFailed)
    case SaveCompleted => if outcome.Ok? then Save(s, c, Completed, Over) else At(s, c, Over)
    case SaveFailed => if outcome.Ok? then Save(s, c, Failed, SendRefund) else At(s, c, Over)
    case SendRefund =>
      if !call.row.source.Stellar? then At(s, c, SaveRefunded)
      else if outcome.Ok? then At(s.(tally := s.tally[b := t.(refunded := t.refunded + 1)]), c, SaveRefunded)
      else if outcome.sent then At(s.(tally := s.tally[b := t.(refunded := t.refunded + 1)]), c, Over)
      else At(s, c, Over)
    case SaveRefunded => if outcome.Ok? then Save(s, c, Refunded, Over) else At(s, c, Over)
  }

  function Next(s: State, l: Label, authorized: set<Signer>): State
    requires Enabled(s, l)
  {
    match l
    case Initiate(b, threshold, source, destination) =>
      s.(rows := s.rows[b := Row(Initiated, 0, threshold, source, destination)])
    case Approve(c, a) =>
      var none := Row(Initiated, 0, 0, Stellar, Stellar);
      s.(calls := s.calls[c := Call(a.bridge, a.signer, if a.signer in authorized then Find else Over, none)])
    case Statement(c, outcome) =>
      if Executing(s.calls[c].phase) then Execute(s, c, outcome) else Transact(s, c)
    case Abort(c) => if s.calls[c].phase.SavePending? then Abandon(s, c) else Rollback(s, c)
  }

  ghost predicate Reaches(s: State, ls: seq<Label>, authorized: set<Signer>, s': State)
    decreases |ls|
  {
    if ls == [] then s' == s
    else Enabled(s, ls[0]) && Reaches(Next(s, ls[0], authorized), ls[1..], authorized, s')
  }

  function Empty(): State { State(map[], {}, map[], map[], map[]) }

  // ---------- The invariant: calls, pairs of calls, bridges ----------

  /** The authorized signers whose approval of `b` is committed. */
  function Approvers(s: State, authorized: set<Signer>, b: BridgeId): set<Signer> {
    set x | x in authorized && Approval(b, x) in s.approvals
  }

  /** What a call knows about its own version of the row, given the committed one. */
  predicate RowKnown(s: State, call: Call) {
    var p := call.phase;
    (p.Insert? || HasInserted(p) || Executing(p) ==> call.bridge in s.rows) &&
    (call.bridge in s.rows ==>
       var row := s.rows[call.bridge];
       && (p.Reread? || p.Flip? ==> call.row == row.(approvals := row.approvals + 1))
       && (p.Flip? ==> call.row.approvals >= row.threshold)
       && (p.Commit? ==>
             && call.row == row.(approvals := row.approvals + 1, status := call.row.status)
             && (if p.execute then Awaiting(row.status) && call.row.status.BridgeProcessing? && call.row.approvals >= row.threshold
                 else call.row.status == row.status && (Awaiting(row.status) ==> call.row.approvals < row.threshold)))
       && (Executing(p) ==> Underway(p, row.status) && SameTerms(call.row, row)))
  }

  predicate SameTerms(a: Row, b: Row) {
    a.threshold == b.threshold && a.source == b.source && a.destination == b.destination
  }

  /** The status of a bridge when its executing call is about to issue statement `p`. */
  predicate Underway(p: Phase, status: BridgeStatus) {
    && (p.SavePending? ==> status.BridgeProcessing?)
    && (p.Pay? || p.SaveCompleted? ==> status.DestinationPending?)
    && (p.SaveFailed? ==> status.BridgeProcessing? || status.DestinationPending?)
    && (p.SendRefund? || p.SaveRefunded? ==> status.Failed?)
  }

  /** How far the money may have moved when a call is about to issue statement `p`. */
  predicate MoneyBefore(p: Phase, row: Row, t: Tally) {
    && (if p.SavePending? then t.started == 0 else t.started == 1 && t.due.None? && t.abandoned == 0)
    && (p.SavePending? || p.Pay? ==> t.paid == t.refunded == t.sentButThrew == 0)
    && (p.SaveCompleted? ==> t.refunded == t.sentButThrew == 0 && t.paid == Moves(row.destination))
    && (p.SaveFailed? || p.SendRefund? ==> t.refunded == 0 && t.paid == t.sentButThrew)
    && (p.SaveRefunded? ==> t.refunded == Moves(row.source) && t.paid == t.sentButThrew)
  }

  /** Withdrawals are made on Stellar only. */
  function Moves(n: Network): nat { if n.Stellar? then 1 else 0 }

  /** What a final status says about the money. */
  predicate StatusTellsMoney(row: Row, t: Tally) {
    && (row.status.Completed? ==> t.paid == Moves(row.destination) && t.refunded == t.sentButThrew == 0)
    && (row.status.Refunded? ==> t.refunded == Moves(row.source) && t.paid == t.sentButThrew)
    && (row.status.Failed? ==> t.paid == t.sentButThrew)
    && (row.status.DestinationPending? ==> t.refunded == 0)
    && (row.status.BridgeProcessing? ==> t.paid == t.refunded == t.sentButThrew == 0)
  }

  predicate CallOk(s: State, authorized: set<Signer>, c: CallId)
    requires c in s.calls
  {
    var call := s.calls[c];
    && (!call.phase.Over? ==> call.signer in authorized)
    && (HasInserted(call.phase) ==> Approval(call.bridge, call.signer) !in s.approvals)
    && (HoldsLock(call.phase) ==> call.bridge in s.locks && s.locks[call.bridge] == c)
    && RowKnown(s, call)
    && (Executing(call.phase) ==> MoneyBefore(call.phase, call.row, TallyOf(s, call.bridge)))
    && (call.phase.SavePending? ==> TallyOf(s, call.bridge).due == Some(c))
  }

  /** Uncommitted approvals are pairwise different, and no bridge is executed by two calls. */
  predicate PairOk(x: Call, y: Call) {
    && (HasInserted(x.phase) && HasInserted(y.phase) ==> x.bridge != y.bridge || x.signer != y.signer)
    && (Executing(x.phase) && Executing(y.phase) ==> x.bridge != y.bridge)
  }

  /** An execution starts at most once, and money moves at most once each way. */
  predicate MoneyOnce(t: Tally) {
    && t.started <= 1 && t.paid <= t.started && t.refunded <= t.started
    && t.sentButThrew <= t.paid
    && (t.refunded > 0 ==> t.paid == t.sentButThrew)
  }

  /** After the flip exactly one of three things is the case: the execution is due, abandoned or started. */
  predicate Fate(t: Tally) {
    t.started + t.abandoned + (if t.due.Some? then 1 else 0) == 1
  }

  /** A bridge that still awaits approvals counts its approval rows exactly and is below its threshold; one whose
      execution started has enough approvers; a locked row is locked by a call on it. */
  predicate BridgeOk(s: State, authorized: set<Signer>, b: BridgeId) {
    var n := |Approvers(s, authorized, b)|;
    var t := TallyOf(s, b);
    && (b in s.rows && Awaiting(s.rows[b].status) ==>
          s.rows[b].approvals == n && (n == 0 || n < s.rows[b].threshold) && t == NOTHING)
    && (b in s.rows && !Awaiting(s.rows[b].status) ==> Fate(t) && n >= s.rows[b].threshold && n >= 1)
    && (t.due.Some? || t.abandoned > 0 ==> b in s.rows && s.rows[b].status.BridgeProcessing?)
    && (t.due.Some? ==>
          t.due.value in s.calls && s.calls[t.due.value].phase.SavePending? && s.calls[t.due.value].bridge == b)
    && (b !in s.rows ==> t == NOTHING && n == 0)
    && (b in s.rows ==> StatusTellsMoney(s.rows[b], t))
    && MoneyOnce(t)
    && (b in s.locks ==>
          s.locks[b] in s.calls && HoldsLock(s.calls[s.locks[b]].phase) && s.calls[s.locks[b]].bridge == b)
  }

  ghost predicate Inv(s: State, authorized: set<Signer>) {
    && (forall c :: c in s.calls ==> CallOk(s, authorized, c))
    && (forall c, d :: c in s.calls && d in s.calls && c != d ==> PairOk(s.calls[c], s.calls[d]))
    && (forall b :: BridgeOk(s, authorized, b))
  }

  lemma CommitAddsApprover(s: State, authorized: set<Signer>, b: BridgeId, x: Signer)
    requires x in authorized && Approval(b, x) !in s.approvals
    ensures |Approvers(s.(approvals := s.approvals + {Approval(b, x)}), authorized, b)| == |Approvers(s, authorized, b)| + 1
  {
    assert Approvers(s.(approvals := s.approvals + {Approval(b, x)}), authorized, b) == Approvers(s, authorized, b) + {x};
  }

  lemma SameApprovers(s: State, s': State, authorized: set<Signer>, b: BridgeId)
    requires forall x :: Approval(b, x) in s.approvals <==> Approval(b, x) in s'.approvals
    ensures Approvers(s, authorized, b) == Approvers(s', authorized, b)
  {
  }

  /** A step of call `c` changes that call and its own bridge only. */
  predicate StepFrame(s: State, c: CallId, s': State) {
    && c in s.calls && c in s'.calls
    && var b, x := s.calls[c].bridge, s.calls[c].signer;
    && s'.calls == s.calls[c := s'.calls[c]] && s'.calls[c].bridge == b && s'.calls[c].signer == x
    && (s'.rows == s.rows || (b in s'.rows && s'.rows == s.rows[b := s'.rows[b]]))
    && (s'.tally == s.tally || (b in s'.tally && s'.tally == s.tally[b := s'.tally[b]]))
    && (s'.locks == s.locks || s'.locks == s.locks[b := c] || s'.locks == s.locks - {b})
    && (s'.approvals == s.approvals || s'.approvals == s.approvals + {Approval(b, x)})
  }

  lemma FrameSparesCall(s: State, authorized: set<Signer>, c: CallId, s': State, d: CallId)
    requires StepFrame(s, c, s') && d in s.calls && d != c && s.calls[d].bridge != s.calls[c].bridge
    requires CallOk(s, authorized, d)
    ensures CallOk(s', authorized, d)
  {
  }

  lemma FrameSparesBridge(s: State, authorized: set<Signer>, c: CallId, s': State, b: BridgeId)
    requires StepFrame(s, c, s') && b != s.calls[c].bridge && BridgeOk(s, authorized, b)
    ensures BridgeOk(s', authorized, b)
  {
    SameApprovers(s, s', authorized, b);
  }

  // ---------- One statement of the approval transaction ----------

  predicate MayTransact(s: State, authorized: set<Signer>, c: CallId) {
    && c in s.calls && !Executing(s.calls[c].phase) && !s.calls[c].phase.Over?
    && (s.calls[c].phase.Increment? ==> s.calls[c].bridge !in s.locks)
    && CallOk(s, authorized, c) && BridgeOk(s, authorized, s.calls[c].bridge)
  }

  /** Besides its frame, what a statement of the transaction does to its bridge. */
  predicate TransactEffect(s: State, c: CallId, s': State) {
    && StepFrame(s, c, s')
    && var call, b := s.calls[c], s.calls[c].bridge;
    if call.phase.Commit? then
      && s'.approvals == s.approvals + {Approval(b, call.signer)} && s'.locks == s.locks - {b}
      && b in s'.rows && s'.rows[b] == call.row
      && s'.calls[c].phase == (if call.phase.execute then SavePending else Over) && s'.calls[c].row == call.row
      && TallyOf(s', b) == (if call.phase.execute then TallyOf(s, b).(due := Some(c)) else TallyOf(s, b))
    else
      && s'.approvals == s.approvals && s'.rows == s.rows && s'.tally == s.tally
      && (s'.locks == s.locks || (HoldsLock(call.phase) && s'.locks == s.locks - {b})
          || (call.phase.Increment? && s'.locks == s.locks[b := c]))
      && !Executing(s'.calls[c].phase)
      && (HasInserted(s'.calls[c].phase) ==> HasInserted(call.phase) || (call.phase.Insert? && s'.locks == s.locks))
      && (HoldsLock(s'.calls[c].phase) ==> if HoldsLock(call.phase) then s'.locks == s.locks else s'.locks == s.locks[b := c])
      && (!HoldsLock(s'.calls[c].phase) ==> if HoldsLock(call.phase) then s'.locks == s.locks - {b} else s'.locks == s.locks)
  }

  lemma RollbackHasEffect(s: State, c: CallId)
    requires c in s.calls && !s.calls[c].phase.Commit?
    ensures TransactEffect(s, c, Rollback(s, c))
  {
  }

  lemma CommitHasEffect(s: State, c: CallId)
    requires c in s.calls && s.calls[c].phase.Commit?
    ensures TransactEffect(s, c, Transact(s, c))
  {
  }

  lemma IncrementHasEffect(s: State, c: CallId)
    requires c in s.calls && s.calls[c].phase.Increment? && s.calls[c].bridge in s.rows
    ensures TransactEffect(s, c, Transact(s, c))
  {
  }

  /** The other statements move on without touching the database as others see it. */
  lemma LookHasEffect(s: State, c: CallId)
    requires c in s.calls && (s.calls[c].phase.Find? || s.calls[c].phase.Insert?)
    ensures TransactEffect(s, c, Transact(s, c))
  {
  }

  lemma DecideHasEffect(s: State, c: CallId)
    requires c in s.calls && (s.calls[c].phase.Reread? || s.calls[c].phase.Flip?)
    ensures TransactEffect(s, c, Transact(s, c))
  {
  }

  lemma TransactHasEffect(s: State, c: CallId)
    requires c in s.calls && !Executing(s.calls[c].phase) && !s.calls[c].phase.Over?
    ensures TransactEffect(s, c, Transact(s, c))
  {
    if s.calls[c].phase.Commit? {
      CommitHasEffect(s, c);
    } else if s.calls[c].phase.Increment? {
      if s.calls[c].bridge in s.rows {
        IncrementHasEffect(s, c);
      } else {
        RollbackHasEffect(s, c);
      }
    } else if s.calls[c].phase.Find? || s.calls[c].phase.Insert? {
      LookHasEffect(s, c);
    } else {
      DecideHasEffect(s, c);
    }
  }

  lemma LockedKeepsSelf(s: State, authorized: set<Signer>, c: CallId)
    requires MayTransact(s, authorized, c) && HoldsLock(s.calls[c].phase)
    ensures CallOk(Transact(s, c), authorized, c)
  {
  }

  lemma UnlockedKeepsSelf(s: State, authorized: set<Signer>, c: CallId)
    requires MayTransact(s, authorized, c) && !HoldsLock(s.calls[c].phase)
    ensures CallOk(Transact(s, c), authorized, c)
  {
  }

  lemma TransactKeepsSelf(s: State, authorized: set<Signer>, c: CallId)
    requires MayTransact(s, authorized, c)
    ensures CallOk(Transact(s, c), authorized, c)
  {
    if HoldsLock(s.calls[c].phase) {
      LockedKeepsSelf(s, authorized, c);
    } else {
      UnlockedKeepsSelf(s, authorized, c);
    }
  }

  lemma TransactKeepsOther(s: State, authorized: set<Signer>, c: CallId, s': State, d: CallId)
    requires MayTransact(s, authorized, c) && TransactEffect(s, c, s')
    requires d in s.calls && d != c && s.calls[d].bridge == s.calls[c].bridge
    requires CallOk(s, authorized, d) && PairOk(s.calls[c], s.calls[d])
    ensures CallOk(s', authorized, d)
  {
  }

  lemma TransactKeepsPair(s: State, authorized: set<Signer>, c: CallId, s': State, d: CallId)
    requires MayTransact(s, authorized, c) && TransactEffect(s, c, s') && d in s.calls && d != c
    requires CallOk(s, authorized, d) && PairOk(s.calls[c], s.calls[d])
    requires s.calls[c].phase.Insert? && HasInserted(s.calls[d].phase) ==>
      s.calls[c].bridge != s.calls[d].bridge || s.calls[c].signer != s.calls[d].signer
    ensures PairOk(s'.calls[c], s.calls[d])
  {
  }

  lemma TransactKeepsBridge(s: State, authorized: set<Signer>, c: CallId, s': State)
    requires MayTransact(s, authorized, c) && TransactEffect(s, c, s')
    ensures BridgeOk(s', authorized, s.calls[c].bridge)
  {
    var call := s.calls[c];
    if call.phase.Commit? {
      CommitAddsApprover(s, authorized, call.bridge, call.signer);
      SameApprovers(s.(approvals := s.approvals + {Approval(call.bridge, call.signer)}), s', authorized, call.bridge);
    } else {
      SameApprovers(s, s', authorized, call.bridge);
    }
  }

  // ---------- One save or withdrawal of the execution ----------

  predicate MayExecute(s: State, authorized: set<Signer>, c: CallId) {
    && c in s.calls && Executing(s.calls[c].phase)
    && (Saves(s.calls[c].phase) ==> s.calls[c].bridge !in s.locks)
    && CallOk(s, authorized, c) && BridgeOk(s, authorized, s.calls[c].bridge)
  }

  /** Besides its frame, what a statement of the execution does to its bridge. */
  predicate ExecuteEffect(s: State, c: CallId, s': State) {
    && StepFrame(s, c, s')
    && var b := s.calls[c].bridge;
    && s'.locks == s.locks && s'.approvals == s.approvals
    && (Executing(s'.calls[c].phase) || s'.calls[c].phase.Over?)
    && (s'.rows == s.rows || (b in s.rows && b in s'.rows && b !in s.locks && !Awaiting(s'.rows[b].status) && s'.rows[b].threshold == s.rows[b].threshold))
    && (if s.calls[c].phase.SavePending?
        then TallyOf(s', b) == TallyOf(s, b).(due := None, started := TallyOf(s, b).started + 1)
        else
          && TallyOf(s', b).started == TallyOf(s, b).started
          && TallyOf(s', b).due == TallyOf(s, b).due && TallyOf(s', b).abandoned == TallyOf(s, b).abandoned)
    && !s'.calls[c].phase.SavePending?
    && MoneyOnce(TallyOf(s', b))
    && b in s'.rows && StatusTellsMoney(s'.rows[b], TallyOf(s', b))
  }

  lemma SaveHasEffect(s: State, authorized: set<Signer>, c: CallId, outcome: Outcome)
    requires MayExecute(s, authorized, c) && Saves(s.calls[c].phase)
    ensures ExecuteEffect(s, c, Execute(s, c, outcome))
  {
  }

  lemma PayoutHasEffect(s: State, authorized: set<Signer>, c: CallId, outcome: Outcome)
    requires MayExecute(s, authorized, c) && s.calls[c].phase.Pay?
    ensures ExecuteEffect(s, c, Execute(s, c, outcome))
  {
  }

  lemma RefundHasEffect(s: State, authorized: set<Signer>, c: CallId, outcome: Outcome)
    requires MayExecute(s, authorized, c) && s.calls[c].phase.SendRefund?
    ensures ExecuteEffect(s, c, Execute(s, c, outcome))
  {
  }

  lemma ExecuteHasEffect(s: State, authorized: set<Signer>, c: CallId, outcome: Outcome)
    requires MayExecute(s, authorized, c)
    ensures ExecuteEffect(s, c, Execute(s, c, outcome))
  {
    if Saves(s.calls[c].phase) {
      SaveHasEffect(s, authorized, c, outcome);
    } else if s.calls[c].phase.Pay? {
      PayoutHasEffect(s, authorized, c, outcome);
    } else {
      RefundHasEffect(s, authorized, c, outcome);
    }
  }

  lemma SaveKeepsSelf(s: State, authorized: set<Signer>, c: CallId, outcome: Outcome)
    requires MayExecute(s, authorized, c) && Saves(s.calls[c].phase)
    ensures CallOk(Execute(s, c, outcome), authorized, c)
  {
  }

  lemma WithdrawalKeepsSelf(s: State, authorized: set<Signer>, c: CallId, outcome: Outcome)
    requires MayExecute(s, authorized, c) && !Saves(s.calls[c].phase)
    ensures CallOk(Execute(s, c, outcome), authorized, c)
  {
  }

  lemma ExecuteKeepsSelf(s: State, authorized: set<Signer>, c: CallId, outcome: Outcome)
    requires MayExecute(s, authorized, c)
    ensures CallOk(Execute(s, c, outcome), authorized, c)
  {
    if Saves(s.calls[c].phase) {
      SaveKeepsSelf(s, authorized, c, outcome);
    } else {
      WithdrawalKeepsSelf(s, authorized, c, outcome);
    }
  }

  lemma ExecuteKeepsOther(s: State, authorized: set<Signer>, c: CallId, s': State, d: CallId)
    requires MayExecute(s, authorized, c) && ExecuteEffect(s, c, s')
    requires d in s.calls && d != c && s.calls[d].bridge == s.calls[c].bridge
    requires CallOk(s, authorized, d) && PairOk(s.calls[c], s.calls[d])
    ensures CallOk(s', authorized, d)
  {
  }

  lemma ExecuteKeepsPair(s: State, authorized: set<Signer>, c: CallId, s': State, d: CallId)
    requires MayExecute(s, authorized, c) && ExecuteEffect(s, c, s') && d in s.calls && d != c
    requires PairOk(s.calls[c], s.calls[d])
    ensures PairOk(s'.calls[c], s.calls[d])
  {
  }

  lemma ExecuteKeepsBridge(s: State, authorized: set<Signer>, c: CallId, s': State)
    requires MayExecute(s, authorized, c) && ExecuteEffect(s, c, s')
    ensures BridgeOk(s', authorized, s.calls[c].bridge)
  {
    SameApprovers(s, s', authorized, s.calls[c].bridge);
  }

  // ---------- Every step keeps the invariant ----------

  /** Assembles the invariant from what a step does to its own call, to the others and to the bridges. */
  lemma Assemble(s: State, authorized: set<Signer>, c: CallId, s': State)
    requires Inv(s, authorized) && StepFrame(s, c, s')
    requires CallOk(s', authorized, c) && BridgeOk(s', authorized, s.calls[c].bridge)
    requires forall d :: d in s.calls && d != c && s.calls[d].bridge == s.calls[c].bridge ==> CallOk(s', authorized, d)
    requires forall d :: d in s.calls && d != c ==> PairOk(s'.calls[c], s.calls[d])
    ensures Inv(s', authorized)
  {
    forall d | d in s'.calls ensures CallOk(s', authorized, d) {
      if d != c && s.calls[d].bridge != s.calls[c].bridge {
        FrameSparesCall(s, authorized, c, s', d);
      }
    }
    forall b ensures BridgeOk(s', authorized, b) {
      if b != s.calls[c].bridge {
        FrameSparesBridge(s, authorized, c, s', b);
      }
    }
    forall x, y | x in s'.calls && y in s'.calls && x != y ensures PairOk(s'.calls[x], s'.calls[y]) {
      if x == c {
        assert s'.calls[y] == s.calls[y];
      } else if y == c {
        assert s'.calls[x] == s.calls[x] && PairOk(s'.calls[c], s.calls[x]);
      } else {
        assert s'.calls[x] == s.calls[x] && s'.calls[y] == s.calls[y];
      }
    }
  }

  lemma TransactKeepsInv(s: State, authorized: set<Signer>, c: CallId)
    requires Inv(s, authorized) && Enabled(s, Statement(c, Ok)) && !Executing(s.calls[c].phase)
    ensures Inv(Transact(s, c), authorized)
  {
    var s' := Transact(s, c);
    assert CallOk(s, authorized, c) && BridgeOk(s, authorized, s.calls[c].bridge);
    TransactHasEffect(s, c);
    TransactKeepsSelf(s, authorized, c);
    TransactKeepsBridge(s, authorized, c, s');
    forall d | d in s.calls && d != c && s.calls[d].bridge == s.calls[c].bridge ensures CallOk(s', authorized, d) {
      TransactKeepsOther(s, authorized, c, s', d);
    }
    forall d | d in s.calls && d != c ensures PairOk(s'.calls[c], s.calls[d]) {
      TransactKeepsPair(s, authorized, c, s', d);
    }
    Assemble(s, authorized, c, s');
  }

  lemma ExecuteKeepsInv(s: State, authorized: set<Signer>, c: CallId, outcome: Outcome)
    requires Inv(s, authorized) && Enabled(s, Statement(c, outcome)) && Executing(s.calls[c].phase)
    ensures Inv(Execute(s, c, outcome), authorized)
  {
    var s' := Execute(s, c, outcome);
    assert CallOk(s, authorized, c) && BridgeOk(s, authorized, s.calls[c].bridge);
    ExecuteHasEffect(s, authorized, c, outcome);
    ExecuteKeepsSelf(s, authorized, c, outcome);
    ExecuteKeepsBridge(s, authorized, c, s');
    forall d | d in s.calls && d != c && s.calls[d].bridge == s.calls[c].bridge ensures CallOk(s', authorized, d) {
      ExecuteKeepsOther(s, authorized, c, s', d);
    }
    forall d | d in s.calls && d != c ensures PairOk(s'.calls[c], s.calls[d]) {
      ExecuteKeepsPair(s, authorized, c, s', d);
    }
    Assemble(s, authorized, c, s');
  }

  lemma RollbackSparesOther(s: State, authorized: set<Signer>, c: CallId, d: CallId)
    requires c in s.calls && CallOk(s, authorized, c) && d in s.calls && d != c && CallOk(s, authorized, d)
    ensures CallOk(Rollback(s, c), authorized, d)
  {
  }

  lemma RollbackKeepsInv(s: State, authorized: set<Signer>, c: CallId)
    requires Inv(s, authorized) && Enabled(s, Abort(c)) && !s.calls[c].phase.SavePending?
    ensures Inv(Rollback(s, c), authorized)
  {
    var s' := Rollback(s, c);
    var b := s.calls[c].bridge;
    assert CallOk(s, authorized, c) && BridgeOk(s, authorized, b);
    SameApprovers(s, s', authorized, b);
    forall d | d in s.calls && d != c ensures CallOk(s', authorized, d) {
      RollbackSparesOther(s, authorized, c, d);
    }
    Assemble(s, authorized, c, s');
  }

  lemma AbandonSparesOther(s: State, authorized: set<Signer>, c: CallId, d: CallId)
    requires c in s.calls && s.calls[c].phase.SavePending? && d in s.calls && d != c && CallOk(s, authorized, d)
    requires PairOk(s.calls[c], s.calls[d])
    ensures CallOk(Abandon(s, c), authorized, d)
  {
  }

  lemma AbandonKeepsInv(s: State, authorized: set<Signer>, c: CallId)
    requires Inv(s, authorized) && Enabled(s, Abort(c)) && s.calls[c].phase.SavePending?
    ensures Inv(Abandon(s, c), authorized)
  {
    var s' := Abandon(s, c);
    var b := s.calls[c].bridge;
    assert CallOk(s, authorized, c) && BridgeOk(s, authorized, b);
    SameApprovers(s, s', authorized, b);
    forall d | d in s.calls && d != c ensures CallOk(s', authorized, d) {
      AbandonSparesOther(s, authorized, c, d);
    }
    Assemble(s, authorized, c, s');
  }

  lemma InitiateKeepsInv(s: State, authorized: set<Signer>, l: Label)
    requires Inv(s, authorized) && Enabled(s, l) && l.Initiate?
    ensures Inv(Next(s, l, authorized), authorized)
  {
    var s' := Next(s, l, authorized);
    forall c | c in s'.calls ensures CallOk(s', authorized, c) {
      assert CallOk(s, authorized, c);
    }
    forall b ensures BridgeOk(s', authorized, b) {
      assert BridgeOk(s, authorized, b);
      SameApprovers(s, s', authorized, b);
    }
  }

  lemma ApproveKeepsInv(s: State, authorized: set<Signer>, l: Label)
    requires Inv(s, authorized) && Enabled(s, l) && l.Approve?
    ensures Inv(Next(s, l, authorized), authorized)
  {
    var s' := Next(s, l, authorized);
    forall c | c in s'.calls ensures CallOk(s', authorized, c) {
      assert c in s.calls ==> CallOk(s, authorized, c);
    }
    forall b ensures BridgeOk(s', authorized, b) {
      assert BridgeOk(s, authorized, b);
      SameApprovers(s, s', authorized, b);
    }
    forall x, y | x in s'.calls && y in s'.calls && x != y ensures PairOk(s'.calls[x], s'.calls[y]) {
      assert x in s.calls && y in s.calls ==> PairOk(s.calls[x], s.calls[y]);
    }
  }

  lemma NextKeepsInv(s: State, l: Label, authorized: set<Signer>)
    requires Inv(s, authorized) && Enabled(s, l)
    ensures Inv(Next(s, l, authorized), authorized)
  {
    match l
    case Initiate(_, _, _, _) => InitiateKeepsInv(s, authorized, l);
    case Approve(_, _) => ApproveKeepsInv(s, authorized, l);
    case Abort(c) =>
      if s.calls[c].phase.SavePending? {
        AbandonKeepsInv(s, authorized, c);
      } else {
        RollbackKeepsInv(s, authorized, c);
      }
    case Statement(c, outcome) =>
      if Executing(s.calls[c].phase) {
        ExecuteKeepsInv(s, authorized, c, outcome);
      } else {
        TransactKeepsInv(s, authorized, c);
      }
  }

  lemma EmptyInv(authorized: set<Signer>)
    ensures Inv(Empty(), authorized)
  {
    forall b ensures BridgeOk(Empty(), authorized, b) {
      assert Approvers(Empty(), authorized, b) == {};
    }
  }

  lemma {:induction false} RunKeepsInv(s: State, ls: seq<Label>, authorized: set<Signer>, s': State)
    requires Inv(s, authorized) && Reaches(s, ls, authorized, s')
    ensures Inv(s', authorized)
    decreases |ls|
  {
    if ls != [] {
      NextKeepsInv(s, ls[0], authorized);
      RunKeepsInv(Next(s, ls[0], authorized), ls[1..], authorized, s');
    }
  }

  // ---------- Main results ----------

  /** In every interleaving of approvals, aborts and crashes: `executeBridge` starts at most once per bridge, and only
      with at least `multisigThreshold` distinct authorized signers, and at least one, on record. */
  lemma ExecutedOnceWithQuorum(ls: seq<Label>, authorized: set<Signer>, s: State, b: BridgeId)
    requires Reaches(Empty(), ls, authorized, s)
    ensures TallyOf(s, b).started <= 1
    ensures TallyOf(s, b).started == 1 ==> b in s.rows && HasQuorum(s, authorized, b)
  {
    EmptyInv(authorized);
    RunKeepsInv(Empty(), ls, authorized, s);
    assert BridgeOk(s, authorized, b);
  }

  predicate HasQuorum(s: State, authorized: set<Signer>, b: BridgeId)
    requires b in s.rows
  {
    |Approvers(s, authorized, b)| >= 1 && |Approvers(s, authorized, b)| >= s.rows[b].threshold
  }

  /** A call has committed the flip of `b` and not yet issued the first statement of `executeBridge`. */
  ghost predicate ExecutionDue(s: State, b: BridgeId) {
    exists c :: c in s.calls && s.calls[c].phase.SavePending? && s.calls[c].bridge == b
  }

  /** When a bridge with quorum has not been executed: exactly when the call that flipped it is still about to, or
      crashed between its commit and the first statement of `executeBridge`. */
  lemma QuorumNotExecutedIff(ls: seq<Label>, authorized: set<Signer>, s: State, b: BridgeId)
    requires Reaches(Empty(), ls, authorized, s)
    requires b in s.rows && HasQuorum(s, authorized, b)
    ensures TallyOf(s, b).started == 0 <==> ExecutionDue(s, b) || TallyOf(s, b).abandoned == 1
    ensures !(ExecutionDue(s, b) && TallyOf(s, b).abandoned == 1)
  {
    EmptyInv(authorized);
    RunKeepsInv(Empty(), ls, authorized, s);
    assert BridgeOk(s, authorized, b);
    forall c | c in s.calls && s.calls[c].phase.SavePending? && s.calls[c].bridge == b
      ensures TallyOf(s, b).due == Some(c)
    {
      assert CallOk(s, authorized, c);
    }
  }

  lemma AbandonedStays(s: State, l: Label, authorized: set<Signer>, b: BridgeId)
    requires Inv(s, authorized) && Enabled(s, l)
    ensures TallyOf(Next(s, l, authorized), b).abandoned >= TallyOf(s, b).abandoned
  {
  }

  /** Such a crash is never made good: whatever follows, the bridge stays in BRIDGE_PROCESSING, unexecuted and unpaid. */
  lemma {:induction false} AbandonedForever(s: State, ls: seq<Label>, authorized: set<Signer>, s': State, b: BridgeId)
    requires Inv(s, authorized) && Reaches(s, ls, authorized, s') && TallyOf(s, b).abandoned > 0
    ensures b in s'.rows && s'.rows[b].status.BridgeProcessing?
    ensures TallyOf(s', b) == NOTHING.(abandoned := 1)
    decreases |ls|
  {
    assert BridgeOk(s, authorized, b);
    if ls != [] {
      NextKeepsInv(s, ls[0], authorized);
      AbandonedStays(s, ls[0], authorized, b);
      AbandonedForever(Next(s, ls[0], authorized), ls[1..], authorized, s', b);
    }
  }

  lemma CrashAfterFlipStrandsBridge(s: State, c: CallId, ls: seq<Label>, authorized: set<Signer>, s': State)
    requires Inv(s, authorized) && c in s.calls && s.calls[c].phase.SavePending?
    requires Reaches(Next(s, Abort(c), authorized), ls, authorized, s')
    ensures
      var b := s.calls[c].bridge;
      && b in s'.rows && s'.rows[b].status.BridgeProcessing? && HasQuorum(s', authorized, b)
      && TallyOf(s', b).started == TallyOf(s', b).paid == 0
  {
    var b := s.calls[c].bridge;
    var crashed := Next(s, Abort(c), authorized);
    NextKeepsInv(s, Abort(c), authorized);
    AbandonedForever(crashed, ls, authorized, s', b);
    RunKeepsInv(crashed, ls, authorized, s');
    assert BridgeOk(s', authorized, b);
  }

  /** While a bridge awaits approvals its counter is the number of approvers and stays below a threshold of at least
      one; nothing was executed or paid. */
  lemma AwaitingCountsApprovers(ls: seq<Label>, authorized: set<Signer>, s: State, b: BridgeId)
    requires Reaches(Empty(), ls, authorized, s)
    requires b in s.rows && Awaiting(s.rows[b].status)
    ensures s.rows[b].approvals == |Approvers(s, authorized, b)|
    ensures s.rows[b].threshold >= 1 ==> s.rows[b].approvals < s.rows[b].threshold
    ensures TallyOf(s, b) == NOTHING
  {
    EmptyInv(authorized);
    RunKeepsInv(Empty(), ls, authorized, s);
    assert BridgeOk(s, authorized, b);
  }

  /** Money goes out at most once to the destination and at most once back to the source. Both can only happen when a
      destination withdrawal threw although it had sent the money. */
  lemma MoneyMovesOnce(ls: seq<Label>, authorized: set<Signer>, s: State, b: BridgeId)
    requires Reaches(Empty(), ls, authorized, s)
    ensures TallyOf(s, b).paid <= 1 && TallyOf(s, b).refunded <= 1
    ensures TallyOf(s, b).paid == 1 && TallyOf(s, b).refunded == 1 ==> TallyOf(s, b).sentButThrew == 1
  {
    EmptyInv(authorized);
    RunKeepsInv(Empty(), ls, authorized, s);
    assert BridgeOk(s, authorized, b);
  }

  /** Whether a refund that goes out doubles a payment is decided by the destination withdrawal alone: at the
      moment of the refund the destination has been paid exactly when its withdrawal threw after sending. */
  lemma RefundDoublesPaymentIff(ls: seq<Label>, authorized: set<Signer>, s: State, c: CallId)
    requires Reaches(Empty(), ls, authorized, s)
    requires c in s.calls && s.calls[c].phase.SendRefund? && s.calls[c].row.source.Stellar?
    ensures
      var b, s' := s.calls[c].bridge, Next(s, Statement(c, Ok), authorized);
      && TallyOf(s', b).refunded == 1
      && (TallyOf(s', b).paid == 1 <==> TallyOf(s, b).sentButThrew == 1)
  {
    EmptyInv(authorized);
    RunKeepsInv(Empty(), ls, authorized, s);
    assert CallOk(s, authorized, c) && BridgeOk(s, authorized, s.calls[c].bridge);
  }

  /** Rows of the approval table are never taken back, and threshold and networks of a bridge never change. */
  lemma ApprovalsOnlyGrow(s: State, l: Label, authorized: set<Signer>)
    requires Inv(s, authorized) && Enabled(s, l)
    ensures s.approvals <= Next(s, l, authorized).approvals
    ensures s.rows.Keys <= Next(s, l, authorized).rows.Keys
    ensures forall b :: b in s.rows ==> SameTerms(Next(s, l, authorized).rows[b], s.rows[b])
  {
    if l.Statement? {
      assert CallOk(s, authorized, l.call);
    }
  }

  lemma {:induction false} TermsStay(s: State, ls: seq<Label>, authorized: set<Signer>, s': State, b: BridgeId)
    requires Inv(s, authorized) && Reaches(s, ls, authorized, s') && b in s.rows
    ensures b in s'.rows && SameTerms(s'.rows[b], s.rows[b])
    decreases |ls|
  {
    if ls != [] {
      ApprovalsOnlyGrow(s, ls[0], authorized);
      NextKeepsInv(s, ls[0], authorized);
      TermsStay(Next(s, ls[0], authorized), ls[1..], authorized, s', b);
    }
  }

  /** A bridge keeps the threshold and the networks it was initiated with, whatever happens. */
  lemma InitiatedTermsStay(s: State, b: BridgeId, threshold: int, source: Network, destination: Network, ls: seq<Label>,
                           authorized: set<Signer>, s': State)
    requires Inv(s, authorized) && b !in s.rows
    requires Reaches(Next(s, Initiate(b, threshold, source, destination), authorized), ls, authorized, s')
    ensures b in s'.rows
    ensures s'.rows[b].threshold == threshold && s'.rows[b].source == source && s'.rows[b].destination == destination
  {
    var l := Initiate(b, threshold, source, destination);
    NextKeepsInv(s, l, authorized);
    TermsStay(Next(s, l, authorized), ls, authorized, s', b);
  }

  // ---------- An approval that runs through ----------

  /** Call `c` has inserted its approval of `b`, and nobody holds the lock of `b`. */
  predicate Inserted(s: State, c: CallId, a: Approval) {
    && c in s.calls && s.calls[c].bridge == a.bridge && s.calls[c].signer == a.signer && s.calls[c].phase.Increment?
    && a.bridge in s.rows && a.bridge !in s.locks
  }

  lemma ReachesCons(s: State, l: Label, ls: seq<Label>, authorized: set<Signer>, s': State)
    requires Enabled(s, l) && Reaches(Next(s, l, authorized), ls, authorized, s')
    ensures Reaches(s, [l] + ls, authorized, s')
  {
    assert ([l] + ls)[1..] == ls;
  }

  /** The call commits: the approval is recorded and counted, and the count decides whether an execution is due. */
  lemma ApprovalCommits(s: State, c: CallId, a: Approval, authorized: set<Signer>) returns (ls: seq<Label>, s': State)
    requires Inserted(s, c, a) && Awaiting(s.rows[a.bridge].status)
    ensures Reaches(s, ls, authorized, s') && s'.approvals == s.approvals + {a} && a.bridge in s'.rows && c in s'.calls
    ensures
      var row, row' := s.rows[a.bridge], s'.rows[a.bridge];
      && row'.approvals == row.approvals + 1
      && if row.approvals + 1 < row.threshold then row'.status == row.status && s'.calls[c].phase.Over?
         else row'.status.BridgeProcessing? && s'.calls[c].phase.SavePending? && s'.calls[c].bridge == a.bridge
  {
    var l := Statement(c, Ok);
    var s1 := Next(s, l, authorized);
    var s2 := Next(s1, l, authorized);
    if s2.calls[c].phase.Flip? {
      var s3 := Next(s2, l, authorized);
      s' := Next(s3, l, authorized);
      ReachesCons(s3, l, [], authorized, s');
      ReachesCons(s2, l, [l], authorized, s');
      ls := [l] + ([l] + ([l] + [l]));
    } else {
      s' := Next(s2, l, authorized);
      ReachesCons(s2, l, [], authorized, s');
      ls := [l] + ([l] + [l]);
    }
    ReachesCons(s1, l, if s2.calls[c].phase.Flip? then [l] + [l] else [l], authorized, s');
    ReachesCons(s, l, if s2.calls[c].phase.Flip? then [l] + ([l] + [l]) else [l] + [l], authorized, s');
  }

  /** An authorized signer who has not approved the bridge yet can approve it, when nobody else is in between. */
  lemma ApprovalRuns(s: State, c: CallId, a: Approval, authorized: set<Signer>) returns (ls: seq<Label>, s': State)
    requires c !in s.calls && a.signer in authorized && a !in s.approvals
    requires a.bridge in s.rows && Awaiting(s.rows[a.bridge].status) && a.bridge !in s.locks
    requires forall d :: d in s.calls && HasInserted(s.calls[d].phase) ==> s.calls[d].bridge != a.bridge
    ensures Reaches(s, ls, authorized, s') && s'.approvals == s.approvals + {a} && a.bridge in s'.rows && c in s'.calls
    ensures
      var row, row' := s.rows[a.bridge], s'.rows[a.bridge];
      && row'.approvals == row.approvals + 1
      && if row.approvals + 1 < row.threshold then row'.status == row.status && s'.calls[c].phase.Over?
         else row'.status.BridgeProcessing? && s'.calls[c].phase.SavePending? && s'.calls[c].bridge == a.bridge
  {
    var l := Statement(c, Ok);
    var s1 := Next(s, Approve(c, a), authorized);
    var s2 := Next(s1, l, authorized);
    assert !InsertBlocked(s2, c);
    var s3 := Next(s2, l, authorized);
    var more;
    more, s' := ApprovalCommits(s3, c, a, authorized);
    ReachesCons(s2, l, more, authorized, s');
    ReachesCons(s1, l, [l] + more, authorized, s');
    ReachesCons(s, Approve(c, a), [l] + ([l] + more), authorized, s');
    ls := [Approve(c, a)] + ([l] + ([l] + more));
  }

  lemma StatementFrame(s: State, c: CallId, outcome: Outcome, authorized: set<Signer>)
    requires Inv(s, authorized) && Enabled(s, Statement(c, outcome))
    ensures StepFrame(s, c, Next(s, Statement(c, outcome), authorized))
    ensures Executing(Next(s, Statement(c, outcome), authorized).calls[c].phase) ==>
      Executing(s.calls[c].phase) || s.calls[c].phase == Commit(true)
  {
    assert CallOk(s, authorized, c) && BridgeOk(s, authorized, s.calls[c].bridge);
    if Executing(s.calls[c].phase) {
      ExecuteHasEffect(s, authorized, c, outcome);
    } else {
      TransactHasEffect(s, c);
    }
  }

  /** The bridge awaits no approvals, and no call is past its check of that. */
  ghost predicate ClosedToApprovals(s: State, b: BridgeId) {
    && b in s.rows && !Awaiting(s.rows[b].status)
    && forall d :: d in s.calls && s.calls[d].bridge == b ==> !s.calls[d].phase.Insert? && !HasInserted(s.calls[d].phase)
  }

  lemma ClosedStep(s: State, l: Label, authorized: set<Signer>, b: BridgeId)
    requires Inv(s, authorized) && Enabled(s, l) && ClosedToApprovals(s, b)
    ensures ClosedToApprovals(Next(s, l, authorized), b)
    ensures forall x :: Approval(b, x) in Next(s, l, authorized).approvals <==> Approval(b, x) in s.approvals
  {
    if l.Statement? {
      var c := l.call;
      StatementFrame(s, c, l.outcome, authorized);
      assert CallOk(s, authorized, c);
      if Executing(s.calls[c].phase) {
        assert BridgeOk(s, authorized, s.calls[c].bridge);
        ExecuteHasEffect(s, authorized, c, l.outcome);
      }
    }
  }

  /** A bridge that awaits no approvals takes no new ones, except from calls that had already found it awaiting. */
  lemma {:induction false} ClosedBridgeTakesNoApprovals(s: State, ls: seq<Label>, authorized: set<Signer>, s': State, b: BridgeId)
    requires Inv(s, authorized) && Reaches(s, ls, authorized, s') && ClosedToApprovals(s, b)
    ensures forall x :: Approval(b, x) in s'.approvals <==> Approval(b, x) in s.approvals
    decreases |ls|
  {
    if ls != [] {
      NextKeepsInv(s, ls[0], authorized);
      ClosedStep(s, ls[0], authorized, b);
      ClosedBridgeTakesNoApprovals(Next(s, ls[0], authorized), ls[1..], authorized, s', b);
    }
  }

  // ---------- How an execution ends ----------

  /** What the final status of a bridge says about the money, in every interleaving. */
  lemma StatusTellsOutcome(ls: seq<Label>, authorized: set<Signer>, s: State, b: BridgeId)
    requires Reaches(Empty(), ls, authorized, s) && b in s.rows
    ensures s.rows[b].status.Completed? ==> TallyOf(s, b).refunded == 0 && TallyOf(s, b).sentButThrew == 0
    ensures s.rows[b].status.Completed? ==> TallyOf(s, b).paid == if s.rows[b].destination.Stellar? then 1 else 0
    ensures s.rows[b].status.Refunded? ==> TallyOf(s, b).refunded == if s.rows[b].source.Stellar? then 1 else 0
    ensures s.rows[b].status.Failed? || s.rows[b].status.Refunded? ==> TallyOf(s, b).paid == TallyOf(s, b).sentButThrew
    ensures Awaiting(s.rows[b].status) || s.rows[b].status.BridgeProcessing? ==> TallyOf(s, b).paid == TallyOf(s, b).refunded == 0
  {
    EmptyInv(authorized);
    RunKeepsInv(Empty(), ls, authorized, s);
    assert BridgeOk(s, authorized, b);
  }

  /** The outcomes of the statements of call `c`, in order. */
  function Outcomes(ls: seq<Label>, c: CallId): seq<Outcome> {
    if ls == [] then []
    else (if ls[0].Statement? && ls[0].call == c then [ls[0].outcome] else []) + Outcomes(ls[1..], c)
  }

  predicate NotAborted(ls: seq<Label>, c: CallId) {
    forall i :: 0 <= i < |ls| ==> ls[i] != Abort(c)
  }

  predicate Concerns(l: Label, c: CallId) { (l.Statement? || l.Abort?) && l.call == c }

  /** Bridge `b` has the same status, terms and tally in both states. */
  predicate SameBridge(s: State, m: State, b: BridgeId) {
    && b in s.rows && b in m.rows && m.rows[b].status == s.rows[b].status && SameTerms(m.rows[b], s.rows[b])
    && TallyOf(m, b) == TallyOf(s, b)
  }

  /** Nobody executes the bridge, and nobody will start to. */
  ghost predicate Settled(s: State, b: BridgeId) {
    && b in s.rows && !Awaiting(s.rows[b].status)
    && forall d :: d in s.calls && Executing(s.calls[d].phase) ==> s.calls[d].bridge != b
  }

  /** A step of a call that does not execute `b` leaves an executed bridge alone. */
  lemma BystanderStep(s: State, l: Label, authorized: set<Signer>, b: BridgeId)
    requires Inv(s, authorized) && Enabled(s, l) && b in s.rows && !Awaiting(s.rows[b].status)
    requires (l.Statement? || l.Abort?) && s.calls[l.call].bridge == b ==> !Executing(s.calls[l.call].phase)
    ensures SameBridge(s, Next(s, l, authorized), b)
  {
    if l.Statement? {
      assert CallOk(s, authorized, l.call);
    }
  }

  /** Only a call that flips the status starts to execute. */
  lemma OnlyFlipsStart(s: State, l: Label, authorized: set<Signer>, d: CallId)
    requires Inv(s, authorized) && Enabled(s, l)
    requires d in Next(s, l, authorized).calls && Executing(Next(s, l, authorized).calls[d].phase)
    ensures d in s.calls && Next(s, l, authorized).calls[d].bridge == s.calls[d].bridge
    ensures Executing(s.calls[d].phase) || s.calls[d].phase == Commit(true)
  {
    if l.Statement? {
      StatementFrame(s, l.call, l.outcome, authorized);
    }
  }

  lemma SettledStep(s: State, l: Label, authorized: set<Signer>, b: BridgeId)
    requires Inv(s, authorized) && Enabled(s, l) && Settled(s, b)
    ensures Settled(Next(s, l, authorized), b) && SameBridge(s, Next(s, l, authorized), b)
  {
    var s' := Next(s, l, authorized);
    BystanderStep(s, l, authorized, b);
    forall d | d in s'.calls && Executing(s'.calls[d].phase) ensures s'.calls[d].bridge != b {
      OnlyFlipsStart(s, l, authorized, d);
      assert RowKnown(s, s.calls[d]) by {
        assert CallOk(s, authorized, d);
      }
    }
  }

  lemma {:induction false} SettledStays(s: State, ls: seq<Label>, authorized: set<Signer>, s': State, b: BridgeId)
    requires Inv(s, authorized) && Reaches(s, ls, authorized, s') && Settled(s, b)
    ensures SameBridge(s, s', b)
    decreases |ls|
  {
    if ls != [] {
      NextKeepsInv(s, ls[0], authorized);
      SettledStep(s, ls[0], authorized, b);
      SettledStays(Next(s, ls[0], authorized), ls[1..], authorized, s', b);
    }
  }

  lemma OthersLeaveExecution(s: State, l: Label, authorized: set<Signer>, c: CallId)
    requires Inv(s, authorized) && Enabled(s, l) && c in s.calls && Executing(s.calls[c].phase) && !Concerns(l, c)
    ensures
      var m := Next(s, l, authorized);
      c in m.calls && m.calls[c] == s.calls[c] && SameBridge(s, m, s.calls[c].bridge)
  {
    assert CallOk(s, authorized, c);
    if (l.Statement? || l.Abort?) && l.call != c {
      assert PairOk(s.calls[c], s.calls[l.call]);
    }
    BystanderStep(s, l, authorized, s.calls[c].bridge);
  }

  /** The run up to the next statement of an executing call: nothing that concerns it changes meanwhile. */
  lemma {:induction false} NextOwn(s: State, ls: seq<Label>, authorized: set<Signer>, s': State, c: CallId)
    returns (m: State, rest: seq<Label>)
    requires Inv(s, authorized) && Reaches(s, ls, authorized, s') && NotAborted(ls, c) && Outcomes(ls, c) != []
    requires c in s.calls && Executing(s.calls[c].phase)
    ensures Inv(m, authorized) && c in m.calls && m.calls[c] == s.calls[c] && SameBridge(s, m, s.calls[c].bridge)
    ensures Enabled(m, Statement(c, Outcomes(ls, c)[0]))
    ensures Reaches(Next(m, Statement(c, Outcomes(ls, c)[0]), authorized), rest, authorized, s')
    ensures Outcomes(rest, c) == Outcomes(ls, c)[1..] && NotAborted(rest, c)
    decreases |ls|
  {
    var tail := ls[1..];
    forall i | 0 <= i < |tail| ensures tail[i] != Abort(c) {
      assert tail[i] == ls[i + 1];
    }
    if Concerns(ls[0], c) {
      assert ls[0] != Abort(c);
      m, rest := s, tail;
      assert CallOk(s, authorized, c);
    } else {
      NextKeepsInv(s, ls[0], authorized);
      OthersLeaveExecution(s, ls[0], authorized, c);
      m, rest := NextOwn(Next(s, ls[0], authorized), tail, authorized, s', c);
    }
  }

  /** The call issues its next statement, and the bridge ends up as `Execute` leaves it. */
  lemma OwnStep(m: State, authorized: set<Signer>, c: CallId, outcome: Outcome)
    requires Inv(m, authorized) && Enabled(m, Statement(c, outcome)) && Executing(m.calls[c].phase)
    ensures Inv(Execute(m, c, outcome), authorized)
    ensures
      var n := Execute(m, c, outcome);
      c in n.calls && n.calls[c].bridge == m.calls[c].bridge && (n.calls[c].phase.Over? ==> Settled(n, m.calls[c].bridge))
  {
    NextKeepsInv(m, Statement(c, outcome), authorized);
    var n := Execute(m, c, outcome);
    var b := m.calls[c].bridge;
    assert CallOk(m, authorized, c);
    ExecuteHasEffect(m, authorized, c, outcome);
    forall d | d in n.calls && Executing(n.calls[d].phase) && n.calls[c].phase.Over? ensures n.calls[d].bridge != b {
      assert d != c && n.calls[d] == m.calls[d] && PairOk(m.calls[c], m.calls[d]);
    }
  }

  /** The run through the next statement of an executing call. */
  lemma Proceed(s: State, ls: seq<Label>, authorized: set<Signer>, s': State, c: CallId) returns (m: State, rest: seq<Label>)
    requires Inv(s, authorized) && Reaches(s, ls, authorized, s') && NotAborted(ls, c) && Outcomes(ls, c) != []
    requires c in s.calls && Executing(s.calls[c].phase)
    ensures c in m.calls && m.calls[c] == s.calls[c] && SameBridge(s, m, s.calls[c].bridge)
    ensures RowKnown(m, m.calls[c]) && MoneyBefore(m.calls[c].phase, m.calls[c].row, TallyOf(m, m.calls[c].bridge))
    ensures
      var n := Execute(m, c, Outcomes(ls, c)[0]);
      && Inv(n, authorized) && Reaches(n, rest, authorized, s')
      && c in n.calls && n.calls[c].bridge == m.calls[c].bridge && (n.calls[c].phase.Over? ==> Settled(n, m.calls[c].bridge))
    ensures Outcomes(rest, c) == Outcomes(ls, c)[1..] && NotAborted(rest, c)
  {
    m, rest := NextOwn(s, ls, authorized, s', c);
    assert CallOk(m, authorized, c);
    OwnStep(m, authorized, c, Outcomes(ls, c)[0]);
  }

  lemma RefundIsSaved(s: State, ls: seq<Label>, authorized: set<Signer>, s': State, c: CallId)
    requires Inv(s, authorized) && Reaches(s, ls, authorized, s') && NotAborted(ls, c)
    requires c in s.calls && s.calls[c].phase.SaveRefunded? && Outcomes(ls, c) == [Ok]
    ensures
      var b := s.calls[c].bridge;
      && b in s.rows && b in s'.rows && s'.rows[b].status.Refunded? && TallyOf(s', b) == TallyOf(s, b)
  {
    var m, rest := Proceed(s, ls, authorized, s', c);
    SettledStays(Execute(m, c, Ok), rest, authorized, s', s.calls[c].bridge);
  }

  lemma RefundIsSent(s: State, ls: seq<Label>, authorized: set<Signer>, s': State, c: CallId)
    requires Inv(s, authorized) && Reaches(s, ls, authorized, s') && NotAborted(ls, c)
    requires c in s.calls && s.calls[c].phase.SendRefund? && Outcomes(ls, c) == [Ok, Ok]
    ensures
      var b := s.calls[c].bridge;
      && b in s.rows && b in s'.rows && s'.rows[b].status.Refunded? && TallyOf(s', b).paid == TallyOf(s, b).paid
      && TallyOf(s', b).refunded == if s.rows[b].source.Stellar? then 1 else 0
  {
    var m, rest := Proceed(s, ls, authorized, s', c);
    RefundIsSaved(Execute(m, c, Ok), rest, authorized, s', c);
  }

  /** From the save of FAILED on: if the saves and the refund go well, the bridge ends REFUNDED. */
  lemma RefundGoesWell(s: State, ls: seq<Label>, authorized: set<Signer>, s': State, c: CallId)
    requires Inv(s, authorized) && Reaches(s, ls, authorized, s') && NotAborted(ls, c)
    requires c in s.calls && s.calls[c].phase.SaveFailed? && Outcomes(ls, c) == [Ok, Ok, Ok]
    ensures
      var b := s.calls[c].bridge;
      && b in s.rows && b in s'.rows && s'.rows[b].status.Refunded? && TallyOf(s', b).paid == TallyOf(s, b).paid
      && TallyOf(s', b).refunded == if s.rows[b].source.Stellar? then 1 else 0
  {
    var m, rest := Proceed(s, ls, authorized, s', c);
    RefundIsSent(Execute(m, c, Ok), rest, authorized, s', c);
  }

  /** A later save or a refund that throws ends the execution: the status stays, and no money moves but what the refund
      had sent all the same. */
  lemma ThrowEndsExecution(s: State, ls: seq<Label>, authorized: set<Signer>, s': State, c: CallId, sent: bool)
    requires Inv(s, authorized) && Reaches(s, ls, authorized, s') && NotAborted(ls, c)
    requires c in s.calls && Outcomes(ls, c) == [Threw(sent)]
    requires
      var p := s.calls[c].phase;
      p.SaveCompleted? || p.SaveFailed? || p.SaveRefunded? || (p.SendRefund? && s.calls[c].row.source.Stellar?)
    ensures
      var b := s.calls[c].bridge;
      && b in s.rows && b in s'.rows && s'.rows[b].status == s.rows[b].status && TallyOf(s', b).paid == TallyOf(s, b).paid
      && TallyOf(s', b).refunded == TallyOf(s, b).refunded + if s.calls[c].phase.SendRefund? && sent then 1 else 0
  {
    var m, rest := Proceed(s, ls, authorized, s', c);
    SettledStays(Execute(m, c, Threw(sent)), rest, authorized, s', s.calls[c].bridge);
  }

  /** A payout that throws, with the saves and the refund going well: the bridge ends REFUNDED, the destination is paid only
      if the payout had been sent all the same, and a Stellar source has its money back. */
  lemma RefusedPayoutIsRefunded(s: State, ls: seq<Label>, authorized: set<Signer>, s': State, c: CallId, sent: bool)
    requires Inv(s, authorized) && Reaches(s, ls, authorized, s') && NotAborted(ls, c)
    requires c in s.calls && s.calls[c].phase.Pay? && s.calls[c].row.destination.Stellar?
    requires Outcomes(ls, c) == [Threw(sent), Ok, Ok, Ok]
    ensures
      var b := s.calls[c].bridge;
      && b in s.rows && b in s'.rows && s'.rows[b].status.Refunded?
      && TallyOf(s', b).paid == (if sent then 1 else 0)
      && TallyOf(s', b).refunded == if s.rows[b].source.Stellar? then 1 else 0
  {
    var m, rest := Proceed(s, ls, authorized, s', c);
    RefundGoesWell(Execute(m, c, Threw(sent)), rest, authorized, s', c);
  }

  lemma CompletionIsSaved(s: State, ls: seq<Label>, authorized: set<Signer>, s': State, c: CallId)
    requires Inv(s, authorized) && Reaches(s, ls, authorized, s') && NotAborted(ls, c)
    requires c in s.calls && s.calls[c].phase.SaveCompleted? && Outcomes(ls, c) == [Ok]
    ensures
      var b := s.calls[c].bridge;
      && b in s.rows && b in s'.rows && s'.rows[b].status.Completed? && TallyOf(s', b) == TallyOf(s, b)
  {
    var m, rest := Proceed(s, ls, authorized, s', c);
    SettledStays(Execute(m, c, Ok), rest, authorized, s', s.calls[c].bridge);
  }

  /** A payout that goes well, with its save: the bridge ends COMPLETED and the destination is paid. */
  lemma PayoutIsCompleted(s: State, ls: seq<Label>, authorized: set<Signer>, s': State, c: CallId)
    requires Inv(s, authorized) && Reaches(s, ls, authorized, s') && NotAborted(ls, c)
    requires c in s.calls && s.calls[c].phase.Pay? && Outcomes(ls, c) == [Ok, Ok]
    ensures
      var b := s.calls[c].bridge;
      && b in s.rows && b in s'.rows && s'.rows[b].status.Completed?
      && TallyOf(s', b).paid == (if s.rows[b].destination.Stellar? then 1 else 0) && TallyOf(s', b).refunded == 0
  {
    var m, rest := Proceed(s, ls, authorized, s', c);
    CompletionIsSaved(Execute(m, c, Ok), rest, authorized, s', c);
  }

  /** A whole execution in which everything goes well. */
  lemma ExecutionIsCompleted(s: State, ls: seq<Label>, authorized: set<Signer>, s': State, c: CallId)
    requires Inv(s, authorized) && Reaches(s, ls, authorized, s') && NotAborted(ls, c)
    requires c in s.calls && s.calls[c].phase.SavePending? && Outcomes(ls, c) == [Ok, Ok, Ok]
    ensures
      var b := s.calls[c].bridge;
      && b in s.rows && b in s'.rows && s'.rows[b].status.Completed?
      && TallyOf(s', b).paid == (if s.rows[b].destination.Stellar? then 1 else 0) && TallyOf(s', b).refunded == 0
  {
    var m, rest := Proceed(s, ls, authorized, s', c);
    PayoutIsCompleted(Execute(m, c, Ok), rest, authorized, s', c);
  }

  /** An execution whose first save already fails, with the rest going well: nothing is paid and the source has its
      money back. */
  lemma FailedStartIsRefunded(s: State, ls: seq<Label>, authorized: set<Signer>, s': State, c: CallId, sent: bool)
    requires Inv(s, authorized) && Reaches(s, ls, authorized, s') && NotAborted(ls, c)
    requires c in s.calls && s.calls[c].phase.SavePending? && Outcomes(ls, c) == [Threw(sent), Ok, Ok, Ok]
    ensures
      var b := s.calls[c].bridge;
      && b in s.rows && b in s'.rows && s'.rows[b].status.Refunded?
      && TallyOf(s', b).paid == 0 && TallyOf(s', b).refunded == if s.rows[b].source.Stellar? then 1 else 0
  {
    var m, rest := Proceed(s, ls, authorized, s', c);
    RefundGoesWell(Execute(m, c, Threw(sent)), rest, authorized, s', c);
  }
}
