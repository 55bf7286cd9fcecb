# PeerX core: a verified model

PeerX is a trading backend. This project models the parts of it that are state machines or algorithms, and proves
what they keep over every run or every input. Each module starts with a comment that names the files it models.

| modules | subject |
|---|---|
| `ZeroLoss`, `ZeroLossService`, `ZeroLossCommands`, `LeaseRaces` | the zero-loss message store: leases, renewals, retries, recovery sweep, cleanup |
| `BridgeApprovals` | multi-signature approval, execution and refund of cross-chain bridges |
| `Sums`, `OrderBook`, `OrderLedger`, `OrdersService`, `ConcurrentOrders`, `TrailingStops` | orders, price-time matching and the lock ledger |
| `Cycles` | depth-first cycle detection over a dependency map |
| `TokenBucket`, `WindowLimits` | two token buckets, a sliding log and a fixed window |
| `AuditChain` | the hash-chained audit log |
| `Invalidation` | transitive cache invalidation and its glob matcher |
| `CanonicalJson`, `Deduplication` | message fingerprints and the bounded deduplication cache |
| `MessageOrdering` | ordered partitions |
| `Drawdown` | one-pass maximum drawdown |
| `Common` | options and a lemma about set sizes |

Code that updates state is modelled by classes and loops whose contracts tie the new state to specification functions;
the laws are lemmas about those functions. Concurrent protocols are state machines over their single steps.
`dafny verify dfyconfig.toml` checks everything.

## How the modules fit together

- **Zero loss, two grains.** `ZeroLoss` treats each service call as one step of a store, with time passing between
  calls; a crashed worker is one that makes no further call. `ZeroLossService` is the code over a Redis object, and each
  method is proved to be one such step. `ZeroLossCommands` interleaves single Redis commands of any number of
  operations on one message, each of which may crash between any two commands. A message and its lease have keys of
  their own, so one message is enough. Two assumptions are part of `ZeroLossCommands.Enabled`: a lease does not
  expire under an operation that is between its first and last command, and a worker acknowledges, completes or fails
  while it holds the lease, or completes or fails later if it has acknowledged before. `LeaseRaces` shows what goes wrong
  with retries, crashes and renewals, and exactly when.
- **Orders.** `OrderBook.Matches` says what a complete matching is, leaving ties to the database. `OrderLedger` gives
  the calls as functions, the laws, and runs; `OrdersService` is the code. These treat calls as run one after the other.
  The row locks make that so for the balances and for the orders already in the book, but no lock covers an order that
  another transaction has inserted and not yet committed: the uncrossed book is proved for serialised calls only, and
  `ConcurrentOrders` says exactly when two concurrent placements leave it crossed. Order ids are fresh, and amounts
  are positive as the request validators demand.
- **Bridges.** A call is a program counter over database statements under read-committed isolation. The unique key on
  `(bridgeId, signerId)` blocks a concurrent insert, and the row lock is held from the increment to the end of the
  transaction. Execution and refund run after the commit, one save or withdrawal at a time.

## Where code and documentation differ

The model follows the code in each case; the lemmas named here state exactly when the documented behaviour holds.

- `lockedBalance` is documented as the amount reserved against open SELL orders. The matcher never touches a balance, so
  what was sold stays locked for good (`SoldStaysLocked`, `CompletedSaleLeavesLock`). The documented meaning holds for
  an account exactly when it has sold nothing (`LockedIsOpenIffNothingSold`), a matching breaks it exactly when the
  book holds something the taker crosses (`MatchKeepsMeaningIff`), and settling the fills would restore it
  (`SettlementRestoresMeaning`).
- A sweep saves a trailing stop that it read without a lock. That undoes a cancellation, a fill or a change of the amount
  committed in between and breaks the lock ledger exactly then (`StaleSaveKeepsInvIff`, `CancelIsUndone`).
- Nothing clears `acknowledgedAt`. A message that was acknowledged, failed, retried and claimed again is not recovered
  when its second worker crashes (`AcknowledgedRetryIsStranded`, `AcknowledgedIsNeverRecovered`). A message in processing
  whose lease is gone is recovered exactly when it was never acknowledged (`RecoveredIffUnacknowledged`).
- `markProcessing` is documented to give a message to at most one worker, and the sweep never to touch the message of a
  live one. Both fail through deletes that do not look at the owner of the lease. A retry that runs while a worker
  works lets a second claim in (`LoneRetryHandsOutTwice`); so does one whose delete comes late, when the message has
  been claimed again (`DelayedDeleteHandsOutTwice`), and one that races with two claims (`RetryRaceHandsOutTwice`). Every
  operation that is inside its section, or working on a lease that has not run out, holds the lease throughout a
  run exactly when no such delete hits one (`StepKeepsHeldIff`, `RunHeldIff`). The first that does makes two running workers
  possible exactly as `TwoWorkersIff` says, and no run has two without one (`OverlapNeedsDeprivation`). A finish after an
  acknowledgement deletes as blindly (`LateDeleteDeprives`); without retries that is harmless (`RetryFreeSafe`).
- A claim that crashes between counting the attempt and setting the status uses up an attempt without handing the
  message out, so attempts can exceed any limit (`CrashedClaimsBurnAttempts`); they are exactly the hand-outs plus
  such claims plus the one in flight. Hand-outs exceed the limit only with retries (`RetryFreeSafe`): as above, by a
  write on a message in processing, or by a write that comes when the limit has been reached since the retry read the
  attempts (`StepWithinAllowanceIff`).
- `renewProcessingLease` can extend the lease of another owner and answer yes, because the lease may change hands between
  its two commands (`RenewalExtendsForeignLease`, `RenewalExtendsOwnIff`).
- The threshold is documented to make `executeBridge` run exactly once. A crash between the commit and the call leaves the
  bridge in BRIDGE_PROCESSING for good (`QuorumNotExecutedIff`, `CrashAfterFlipStrandsBridge`).
- A field named `__proto__` does not enter the fingerprint of a message (`NormalFormsDecide`).
- A limit below one still allows one claim. The bounds are therefore stated with `max(1, maxAttempts)` and hold
  without an assumption on the limit.
- Chain verification never recomputes a checksum (`PayloadsAreNotVerified`).
- `clearKey` also clears the buckets of every caller whose key starts with the given one, or continues with it after a
  double colon, as IPv6 addresses do (`ClearReachesIff`).
- Two queues share a partition when one name extends the other by a colon, and only then (`QueuesMixIff`).

## Model

| member | source | states |
|---|---|---|
| ZeroLoss.ApplyKeepsInvIff | src/queue/zero-loss-message.service.ts:127-347 | a call keeps the store invariant (attempts within the limit, pending below it, a live lease only on a message in processing, exact queue index) exactly when it is not a re-persist of a used id into another queue or under a live lease |
| ZeroLoss.PersistKeepsInvIff | src/queue/zero-loss-message.service.ts:127-156 | the same condition for persist alone, both directions |
| ZeroLoss.RunKeepsInv | src/queue/zero-loss-message.service.ts:127-536 | every run without such a re-persist keeps the invariant |
| ZeroLoss.ReachableInv | src/queue/zero-loss-message.service.ts:603-606 | in every reachable store the invariant holds, and the "Exceeded max retry attempts" branch needs a message persisted with a limit below one |
| ZeroLoss.AttemptsCountHandOuts | src/queue/zero-loss-message.service.ts:165-203 | over any run, attempts grow by exactly the number of hand-outs |
| ZeroLoss.HandOutsBounded | src/queue/zero-loss-message.service.ts:165-203 | over any run, a message is handed out at most max(1, maxAttempts) times |
| ZeroLoss.RunSpendsBudget | src/queue/zero-loss-message.service.ts:381-455 | hand-outs and recoveries of a message together fit in a measure that never grows, so neither goes on forever |
| ZeroLoss.LostOnlyByCleanup | src/queue/zero-loss-message.service.ts:510-536 | a message that is gone was removed by one cleanup that found it completed and old enough, with payload and queue as persisted |
| ZeroLoss.PayloadNeverChanges | src/queue/zero-loss-message.service.ts:127-156 | over any run, a stored message keeps its payload, queue and limit |
| ZeroLoss.SweepExact | src/queue/zero-loss-message.service.ts:362-455 | the sweep as a store step: every orphan is requeued or failed, none is left, and no other message, queue or live lease changes; that the loop of the service computes this step and counts the orphans is RecoverOrphanedMessages |
| ZeroLoss.LiveWorkerUndisturbed | src/queue/zero-loss-message.service.ts:63-66 | a worker that renews before its lease runs out still holds the lease in the end and the message is as it was, whatever others persist, claim, renew, sweep or clean up |
| ZeroLoss.CrashesExhaustMessage | src/queue/zero-loss-message.service.ts:381-455 | in every run in which nobody acknowledges, completes, fails, retries or persists it again, a pending message has failed exactly when as many of its hand-outs were recovered as it had attempts left, and then it was handed out exactly that often |
| ZeroLoss.CrashRoundsFail | src/queue/zero-loss-message.service.ts:381-455 | a never-acknowledged message whose every worker crashes does end in failed after its allowance of claims |
| ZeroLoss.CompletedIsDone | src/queue/zero-loss-message.service.ts:264-284 | over every run, a completed message that nobody fails, retries or persists again is neither handed out nor recovered |
| ZeroLoss.CleanupRemovesIff | src/queue/zero-loss-message.service.ts:513-528 | after a complete and any run that leaves the message to workers, a cleanup removes it exactly when more time than its age limit has passed |
| ZeroLoss.FailedIsKept | src/queue/zero-loss-message.service.ts:289-311 | a message marked as failed is stored, and not completed, as long as nobody completes or persists it again |
| ZeroLoss.PersistedIsClaimed | src/queue/zero-loss-message.service.ts:127-203 | a newly persisted message can be claimed at once, on a lease of full length and as the first attempt |
| ZeroLoss.AcknowledgedIsNeverRecovered | src/queue/zero-loss-message.service.ts:234-259 | an acknowledged message in processing is unchanged by any run without complete, fail, retry or re-persist of it |
| ZeroLoss.RecoveredIffUnacknowledged | src/queue/zero-loss-message.service.ts:381-412 | once the lease of a message in processing is gone and nobody settles it, the next sweep takes it out of processing exactly when it was not acknowledged |
| ZeroLoss.SweepMovesIff | src/queue/zero-loss-message.service.ts:402-412 | the same for one sweep |
| ZeroLoss.AcknowledgedRetryIsStranded | src/queue/zero-loss-message.service.ts:317-347 | from any idle pending message with two attempts left, claim, acknowledge, fail, retry, claim, crash and sweep leave it stuck in processing |
| ZeroLossService.Redis.SetNx | src/queue/zero-loss-message.service.ts:167-173 | takes the lease exactly when no live one exists, and otherwise leaves it |
| ZeroLossService.ZeroLossMessageService.PersistMessage | src/queue/zero-loss-message.service.ts:127-156 | stores the message pending with no attempts, indexes it under its queue, and touches no lease |
| ZeroLossService.ZeroLossMessageService.MarkProcessing | src/queue/zero-loss-message.service.ts:165-203 | true exactly for a stored pending message without a live lease; then this instance holds the lease, one attempt more is counted and the status is processing; otherwise no message changes |
| ZeroLossService.ZeroLossMessageService.RenewProcessingLease | src/queue/zero-loss-message.service.ts:210-232 | extends the lease exactly when this instance holds it |
| ZeroLossService.ZeroLossMessageService.AcknowledgeMessage | src/queue/zero-loss-message.service.ts:238-259 | sets the flag of a stored message and drops its lease; false and no change otherwise |
| ZeroLossService.ZeroLossMessageService.MarkCompleted | src/queue/zero-loss-message.service.ts:264-284 | a stored message is completed at the present time and has no lease; false and no change otherwise |
| ZeroLossService.ZeroLossMessageService.MarkFailed | src/queue/zero-loss-message.service.ts:289-311 | a stored message is failed and has no lease; false and no change otherwise |
| ZeroLossService.ZeroLossMessageService.RetryMessage | src/queue/zero-loss-message.service.ts:317-347 | exactly a stored message with attempts left, whatever its status, is pending and has no lease afterwards; otherwise nothing changes |
| ZeroLossService.ZeroLossMessageService.RecoverMessage | src/queue/zero-loss-message.service.ts:381-455 | true exactly for an orphan, which is then pending if attempts are left and failed if not, without a lease; no other message and no live lease changes |
| ZeroLossService.ZeroLossMessageService.ScanKeys | src/queue/zero-loss-message.service.ts:697-712 | collects all pages in order, repeats included |
| ZeroLossService.ZeroLossMessageService.RecoverOrphanedMessages | src/queue/zero-loss-message.service.ts:362-379 | for any pages that cover the stored ids, with any repeats, the result is exactly the number of orphans and the store is swept |
| ZeroLossService.SweepOneMore | src/queue/zero-loss-message.service.ts:366-371 | visiting a key for the first time or again extends the sweep by exactly that key and counts it at most once |
| ZeroLossService.CleanOneMore | src/queue/zero-loss-message.service.ts:517-530 | the same for cleanup, messages and queue index together |
| ZeroLossService.ZeroLossMessageService.CleanupMessage | src/queue/zero-loss-message.service.ts:518-529 | removes one message and its index entry exactly when it is completed and old enough |
| ZeroLossService.ZeroLossMessageService.CleanupCompletedMessages | src/queue/zero-loss-message.service.ts:510-536 | removes exactly the completed messages that are old enough and returns their number |
| ZeroLossCommands.StepKeepsHeldIff | src/queue/zero-loss-message.service.ts:165-203 | a step keeps "every operation that is inside its section, or working on a lease that has not run out, holds the lease" exactly when it is not a blind delete, that of a retry or of a finish after an acknowledgement, over such an operation |
| ZeroLossCommands.RunHeldIff | src/queue/zero-loss-message.service.ts:158-203 | over every run, with retries, late finishes, crashes and expiries, that holds throughout exactly when there is no such delete |
| ZeroLossCommands.RunKeepsInvIff | src/queue/zero-loss-message.service.ts:317-347 | over every run all of that holds throughout exactly when there is neither |
| ZeroLossCommands.StepKeepsInvIff | src/queue/zero-loss-message.service.ts:165-455 | a step keeps that, the holder's knowledge, one open hand-out at a time, the hand-out ledger and the attempt accounts exactly when it is neither such a delete nor a retry's HSET on a message in processing |
| ZeroLossCommands.LeaseProtocolSafe | src/queue/zero-loss-message.service.ts:57-61 | in every interleaving without either: at most one operation is inside a section or working on an unexpired lease, no hand-out meets a running worker, at most one hand-out is open, claims are handed out and requeued at most once each, and attempts are exactly hand-outs plus crashed claims plus the one in flight |
| ZeroLossCommands.RecoveryWritesOrphansOnly | src/queue/zero-loss-message.service.ts:381-455 | in such an interleaving, when a recovery is about to write, it holds the lease itself, the worker it takes the message from has crashed or its lease has run out, that claim is the one open hand-out and was never requeued before, and the test under the lease still holds |
| ZeroLossCommands.StepWithinAllowanceIff | src/queue/zero-loss-message.service.ts:317-342 | where nothing is spoilt, hand-outs leave the allowance exactly through a retry whose HSET comes when the allowance is used up |
| ZeroLossCommands.HandOutsWithinAllowance | src/queue/zero-loss-message.service.ts:165-203 | hand-outs stay within the allowance in every unspoilt run without such retries |
| ZeroLossCommands.StatusNeedsFinish | src/queue/zero-loss-message.service.ts:238-311 | over every run, a message is acknowledged or completed only after a worker began to do so, and failed with attempts left only after a worker began to fail it |
| ZeroLossCommands.ExhaustedIsNeverRetried | src/queue/zero-loss-message.service.ts:319-330 | once attempts are used up and no retry is past its check, no retry ever writes the message or deletes its lease |
| LeaseRaces.CrashedClaimsBurnAttempts | src/queue/zero-loss-message.service.ts:184-197 | for every n there is a run that ends with n attempts counted and nothing handed out |
| LeaseRaces.RetryRaceHandsOutTwice | src/queue/zero-loss-message.service.ts:331-342 | from any failed message with attempts left, a retry racing with two claims ends with both workers running |
| LeaseRaces.LoneRetryHandsOutTwice | src/queue/zero-loss-message.service.ts:317-347 | from any fresh message with a limit of two or more: a claim, a complete retry while its worker works, and a second claim end with both workers running and nothing requeued |
| LeaseRaces.DelayedDeleteHandsOutTwice | src/queue/zero-loss-message.service.ts:317-347 | from any fresh message with a limit of three or more: a failed message is claimed between a retry's HSET and its DEL, and a recovery and a claim then start a second worker, without any expiry or crash |
| LeaseRaces.TwoWorkersIff | src/queue/zero-loss-message.service.ts:317-347 | after any run without a delete that takes the lease of an active operation, no hand-out can meet a running worker with an unexpired lease; the next step makes that possible, without a further command of a retry or late delete, exactly when it is such a delete while the message is pending or can be requeued, and not over a recovery about to fail the message |
| LeaseRaces.OverlapNeedsDeprivation | src/queue/zero-loss-message.service.ts:158-164 | every run in which a hand-out meets a running worker contains such a delete |
| LeaseRaces.RetryFreeSafe | src/queue/zero-loss-message.service.ts:158-203 | without retries no hand-out meets a running worker and hand-outs stay within the allowance, whatever crashes, expires or finishes late |
| LeaseRaces.LateDeleteDeprives | src/queue/zero-loss-message.service.ts:264-284 | the delete of a finish after an acknowledgement can take the lease of a claim inside its section |
| LeaseRaces.RenewalExtendsOwnIff | src/queue/zero-loss-message.service.ts:210-232 | after any commands between its GET and its EXPIRE, a renewal answers yes exactly when there is a lease, and extends the worker's own lease exactly when the worker held it all the time |
| LeaseRaces.RenewalExtendsForeignLease | src/queue/zero-loss-message.service.ts:210-232 | a run in which a renewal extends another owner's lease and answers yes |
| LeaseRaces.RefusedForGood | src/queue/zero-loss-message.service.ts:165-455 | a claim, recovery, retry or renewal that does not find what it looks for changes nothing and issues no further command |
| LeaseRaces.FinishRuns | src/queue/zero-loss-message.service.ts:238-311 | a worker that holds the lease can acknowledge, complete or fail the message, which leaves exactly that mark and no lease |
| LeaseRaces.LateFinishRuns | src/queue/zero-loss-message.service.ts:264-311 | a worker that has acknowledged can complete or fail the message later, to the same effect |
| BridgeApprovals.NextKeepsInv | src/blockchain/services/cross-chain-bridge.service.ts:75-228 | every statement, abort, crash, save or withdrawal keeps the invariant on calls, pairs of calls and bridges |
| BridgeApprovals.RunKeepsInv | src/blockchain/services/cross-chain-bridge.service.ts:52-228 | so does every interleaving |
| BridgeApprovals.ExecutedOnceWithQuorum | src/blockchain/services/cross-chain-bridge.service.ts:79-170 | in every interleaving execution starts at most once per bridge, and only with at least threshold distinct authorized signers, and at least one, on record |
| BridgeApprovals.QuorumNotExecutedIff | src/blockchain/services/cross-chain-bridge.service.ts:147-170 | a bridge with quorum has not been executed exactly when the call that flipped it is still about to, or crashed between its commit and the first statement of the execution |
| BridgeApprovals.AbandonedForever | src/blockchain/services/cross-chain-bridge.service.ts:98-106 | after such a crash, whatever follows, the bridge stays in BRIDGE_PROCESSING, unexecuted and unpaid |
| BridgeApprovals.CrashAfterFlipStrandsBridge | src/blockchain/services/cross-chain-bridge.service.ts:164-178 | a crash at that point leaves quorum on record, BRIDGE_PROCESSING and no execution for good |
| BridgeApprovals.AwaitingCountsApprovers | src/blockchain/services/cross-chain-bridge.service.ts:98-163 | a bridge that awaits approvals has a counter equal to its approvers and below a threshold of at least one, and nothing was executed or paid |
| BridgeApprovals.MoneyMovesOnce | src/blockchain/services/cross-chain-bridge.service.ts:172-228 | at most one payout and one refund per bridge, and both only if a payout threw after sending |
| BridgeApprovals.StatusTellsOutcome | src/blockchain/services/cross-chain-bridge.service.ts:172-228 | in every interleaving: a COMPLETED bridge with a Stellar destination was paid once, not refunded, and no payout threw; a REFUNDED one with a Stellar source was refunded once; a FAILED or REFUNDED one was paid only if the payout threw after sending |
| BridgeApprovals.RefusedPayoutIsRefunded | src/blockchain/services/cross-chain-bridge.service.ts:195-227 | whatever runs in between, a payout that throws, with its later saves and the refund going well, ends REFUNDED; the destination is paid only if the payout had sent, and a Stellar source has its money back |
| BridgeApprovals.FailedStartIsRefunded | src/blockchain/services/cross-chain-bridge.service.ts:175-200 | so does an execution whose first save fails, with nothing paid |
| BridgeApprovals.ExecutionIsCompleted | src/blockchain/services/cross-chain-bridge.service.ts:175-207 | an execution in which everything goes well ends COMPLETED and paid |
| BridgeApprovals.PayoutIsCompleted | src/blockchain/services/cross-chain-bridge.service.ts:179-207 | so does a payout with its save |
| BridgeApprovals.ThrowEndsExecution | src/blockchain/services/cross-chain-bridge.service.ts:195-227 | a later save or a refund that throws leaves the status as it is and moves no money but what the refund had sent |
| BridgeApprovals.RefundDoublesPaymentIff | src/blockchain/services/cross-chain-bridge.service.ts:195-228 | a refund that goes out doubles a payment exactly when the payout had thrown after sending |
| BridgeApprovals.ApprovalsOnlyGrow | src/blockchain/entities/bridge-approval.entity.ts:17-20 | no step removes an approval or a bridge or changes a threshold or a network |
| BridgeApprovals.InitiatedTermsStay | src/blockchain/services/cross-chain-bridge.service.ts:52-73 | over every run, a bridge keeps the threshold and the networks it was initiated with |
| BridgeApprovals.ApprovalRuns | src/blockchain/services/cross-chain-bridge.service.ts:79-170 | an authorized signer who has not approved an awaiting bridge can, with nobody in between: the approval is recorded and counted, and exactly a count that reaches the threshold makes an execution due |
| BridgeApprovals.ClosedBridgeTakesNoApprovals | src/blockchain/services/cross-chain-bridge.service.ts:98-106 | a bridge that awaits no approvals takes no new ones, except from calls that had found it awaiting |
| OrderBook.FillKeepsWellFormed | src/orders/services/order-book.service.ts:181-197 | a fill keeps every order well formed, moves only filled amount and status and only forwards, and closes the maker if the taker wants more |
| OrderBook.MatchKeeps | src/orders/services/order-book.service.ts:89-179 | a whole matching keeps orders well formed and lets them only grow |
| OrderBook.MatchEnds | src/orders/services/order-book.service.ts:99-128 | a matching ends with the taker done or nothing left that it crosses |
| OrderBook.MatchUncrosses | src/orders/services/order-book.service.ts:89-179 | after a matching no resting buy of any asset could trade with a resting sell |
| OrderBook.TakerGetsFills | src/orders/services/order-book.service.ts:130-137 | the taker's filled amount grows by exactly the sum of the fills, and its status says whether it is done |
| OrderBook.FillPricesOrdered | src/orders/services/order-book.service.ts:112-134 | no fill breaks the taker's limit, and fill prices only get worse for the taker |
| OrderBook.FillsFromBook | src/orders/services/order-book.service.ts:127-134 | every fill is at the price of a maker that the taker crossed from the start |
| OrderBook.OlderMakerFirst | src/orders/services/order-book.service.ts:119-124 | of two fills at one price the earlier one went to the maker created earlier |
| OrderBook.NobodyIsPassedOver | src/orders/services/order-book.service.ts:112-127 | if a maker the taker crosses keeps a remainder, no fill went to a maker of a worse price, nor to one of the same price created later |
| OrderLedger.EnterKeepsInv | src/orders/orders.service.ts:42-93 | entering an order keeps the laws, up to the new order's own prices |
| OrderLedger.ModifyKeepsInv | src/orders/orders.service.ts:157-238 | so does changing one |
| OrderLedger.MatchStepKeepsInv | src/orders/services/order-book.service.ts:89-179 | matching restores the laws in full |
| OrderLedger.StepKeepsInv | src/orders/orders.service.ts:42-250 | every call run on its own, failed or not, keeps: locks equal the commitments of the account's sell orders and lie between zero and the balance, bought equals sold per asset, the book is uncrossed |
| OrderLedger.RunKeepsInv | src/orders/orders.service.ts:42-250 | so does every run of calls one after the other from an empty book |
| OrderLedger.CancelReleasesExactly | src/orders/orders.service.ts:130-145 | cancelling releases exactly the remaining amount; the clamp at zero never acts |
| OrderLedger.LockCoversOrder | src/orders/orders.service.ts:137-143 | no open sell order has more to release than its account has locked |
| OrderLedger.MatchKeepsBalanced | src/orders/services/order-book.service.ts:130-139 | per asset, the total bought equals the total sold after any matching |
| OrderLedger.LockedIsOpenIffNothingSold | src/database/entities/user-balance.entity.ts:30-37 | the lock is the open remainder plus everything sold, so it is the open remainder exactly when nothing was sold |
| OrderLedger.SettlementRestoresMeaning | src/database/entities/user-balance.entity.ts:30-37 | with every fill also taken from the seller's balance and lock, the lock is the open remainder, stays covered, and available funds are the same |
| OrderLedger.MatchKeepsMeaningIff | src/orders/services/order-book.service.ts:89-197 | starting from the documented meaning, matching a taker with something left keeps it exactly when the book holds nothing with a remainder that the taker crosses |
| OrderLedger.SoldStaysLocked | src/orders/services/order-book.service.ts:181-197 | in every run, what a sell order has sold is locked in its account at every later moment |
| OrderLedger.CompletedSaleLeavesLock | src/orders/services/order-book.service.ts:181-197 | for every amount, price and pair of users: a run of two calls after which no order is open and the whole amount is still locked |
| ConcurrentOrders.TakerLeftover | src/orders/services/order-book.service.ts:99-137 | a complete matching leaves the taker with exactly what the makers it crosses could not offer |
| ConcurrentOrders.ConcurrentPlacementsUncrossedIff | src/orders/services/order-book.service.ts:99-139 | when a buy and a sell of different accounts placed at the same time both query the committed book before either commits, the book ends uncrossed exactly when they are not two limit orders of one asset that cross each other with more to trade than the book offers either; all known before the calls |
| ConcurrentOrders.NoWriteIsLost | src/orders/services/order-book.service.ts:102-139 | no resting order is written by both transactions, so both keep their writes |
| ConcurrentOrders.ConcurrentLimitsCross | src/orders/services/order-book.service.ts:102-128 | on an empty book, a buy limit at or above a sell limit of another account placed at the same time leaves it crossed |
| TrailingStops.SaveKeepsInvIff | src/orders/services/stop-order-monitor.service.ts:107-147 | saving an earlier version of a trailing stop keeps the laws of the ledger exactly when the order was not filled in between and, if it sells, still commits the same amount |
| TrailingStops.StaleSaveKeepsInvIff | src/orders/services/stop-order-monitor.service.ts:45-78 | the same over every run, for a row read at one moment and saved at a later one |
| TrailingStops.CancelIsUndone | src/orders/services/stop-order-monitor.service.ts:143-146 | a cancellation in between is undone while its lock stays released, so the locks are no longer exact |
| OrdersService.QueryMaker | src/orders/services/order-book.service.ts:102-127 | finds a maker the taker crosses such that no other one has a better price, or the same price and an earlier creation time; none exactly when nothing crosses |
| OrdersService.OrdersService.MatchTakerOrder | src/orders/services/order-book.service.ts:89-179 | the loop, which saves makers at once and the taker at the end, performs a complete matching and terminates |
| OrdersService.OrdersService.EnterOrder | src/orders/orders.service.ts:42-93 | succeeds exactly when the order has the price its kind needs and a sale has enough available balance; then the order is stored as requested and exactly its amount is locked; otherwise nothing changes and the error says why |
| OrdersService.OrdersService.PlaceOrder | src/orders/orders.service.ts:42-107 | is one step of the ledger and keeps the laws; succeeds on exactly those conditions, with the order as requested and its amount locked; a call that throws changes nothing |
| OrdersService.OrdersService.CancelOrder | src/orders/orders.service.ts:109-155 | succeeds exactly for an open order of the caller, changes only its status, releases exactly its remainder, keeps the laws; otherwise changes nothing, with the error that says why |
| OrdersService.OrdersService.ChangeOrder | src/orders/orders.service.ts:157-238 | succeeds exactly for an own resting order with an admissible change; then every field has the value asked for and the lock moves by the change of the amount; otherwise nothing changes although the balance is written before the last checks |
| OrdersService.OrdersService.ModifyOrder | src/orders/orders.service.ts:157-250 | is one step of the ledger and keeps the laws; succeeds on exactly those conditions, with every field as asked for; a call that throws changes nothing |
| OrdersService.OrdersService.Trigger | src/orders/services/stop-order-monitor.service.ts:149-175 | fires exactly for a pending order, is one step of the ledger and keeps the laws |
| Cycles.FindCycles | tools/analyze-simple.js:95-124 | everything reported is a simple closed walk along edges, every closed walk of the graph uses an edge that closes a reported one, and the report is empty exactly when the graph is acyclic; terminates on every finite graph |
| Cycles.CycleFinder.Dfs | tools/analyze-simple.js:99-115 | restores the stack, visits the node, only adds cycles, keeps the search invariant |
| Cycles.CycleFinder.Report | tools/analyze-simple.js:108-111 | appends one cycle, closed by the edge to the dependency found on the stack |
| Cycles.BackEdgeClosesCycle | tools/analyze-simple.js:109-110 | the slice of the path from the first occurrence, closed, is a simple cycle |
| Cycles.RankedIsCaught | tools/analyze-simple.js:95-124 | with a finishing order that descends along every edge that closes no reported cycle, every closed walk uses a closing edge |
| Cycles.Verdict | tools/analyze-simple.js:117-123 | when the search is finished every closed walk uses a closing edge, and nothing was reported exactly when the graph is acyclic |
| TokenBucket.ExpiryUnobservable | src/ratelimit/rate-limit.service.ts:24-55 | on every request sequence the script with its expiring key replies exactly like a bucket kept forever |
| TokenBucket.ExpiredIsFull | src/ratelimit/rate-limit.service.ts:43-52 | by the time the key is gone the bucket is full |
| TokenBucket.ResetSuffices | src/ratelimit/rate-limit.service.ts:44-50 | after a refusal and `reset` idle seconds a request of the same size is admitted exactly when it fits the capacity |
| TokenBucket.ResetIsLeast | src/ratelimit/rate-limit.service.ts:44-50 | with a second less it is refused again |
| TokenBucket.UseStaysSane | src/ratelimit/rate-limit.service.ts:30-42 | tokens stay between zero and the capacity |
| TokenBucket.GrantsArePaid | src/ratelimit/rate-limit.service.ts:30-42 | grants never exceed the tokens held plus what flows in |
| TokenBucket.GrantsBounded | src/ratelimit/deterministic-rate-limit.service.ts:25-54 | in any interval at most the capacity plus rate times its length is granted, whatever the history |
| TokenBucket.FreshAdmitsIff | src/ratelimit/rate-limit.service.ts:24-55 | a fresh bucket admits a whole monotone sequence of requests exactly when every stretch of it asks for at most the capacity plus the rate times its length |
| TokenBucket.BucketAdmitsIff | src/ratelimit/deterministic-rate-limit.service.ts:40-53 | an existing bucket does exactly when, besides, every beginning of it asks for at most the tokens it holds plus what flows in |
| TokenBucket.RateLimitService.RunTokenBucket | src/ratelimit/rate-limit.service.ts:17-56 | the reply is that of the specification; a grant takes exactly the requested tokens from those found, a refusal none, and what remains is stored with the time; no other key changes |
| TokenBucket.DeterministicRateLimitService.IsAllowed | src/ratelimit/deterministic-rate-limit.service.ts:25-54 | admits exactly when a token is found, and takes exactly that one; it decides and stores as the script does for a unit request |
| TokenBucket.DeterministicRateLimitService.ClearKey | src/ratelimit/deterministic-rate-limit.service.ts:56-63 | removes exactly the buckets whose name contains `::key` and leaves the others |
| TokenBucket.ClearReachesIff | src/ratelimit/deterministic-rate-limit.service.ts:56-63 | for endpoints without colons, clearing reaches the bucket of a caller exactly when the key starts right after some `::` of `::caller` |
| TokenBucket.ClearReachesPrefixes | src/ratelimit/deterministic-rate-limit.service.ts:56-63 | for a caller without colons that is: exactly when the caller starts with the key |
| WindowLimits.SlidingWindowBound | src/scripts/rate-limit.middleware.ts:17-48 | in every window of the configured length, wherever it lies, at most the limit was admitted |
| WindowLimits.SlidingRefusesIff | src/scripts/rate-limit.middleware.ts:24-37 | a request is refused exactly when its window already holds the limit |
| WindowLimits.RateLimitMiddleware.Use | src/scripts/rate-limit.middleware.ts:17-48 | refuses exactly when the window that ends now holds the limit of admissions of the full history, although old entries are dropped; keeps every window of that history within the limit, and leaves other addresses alone |
| WindowLimits.RateLimitMiddleware.Cleanup | src/scripts/rate-limit.middleware.ts:50-58 | drops exactly the times outside the window and the addresses left without any, and leaves every later decision for every address as it would be on the full history |
| WindowLimits.FixedWindowBound | src/ratelimit/ratelimit.service.ts:48-84 | at most the limit per window, and at most twice that in any interval of a window's length |
| WindowLimits.FixedRefusesIff | src/ratelimit/ratelimit.service.ts:53-77 | a request is refused exactly when its window has already admitted the limit |
| WindowLimits.FixedStepKeepsInv | src/ratelimit/ratelimit.service.ts:53-77 | a request keeps windows disjoint, admissions inside their window, and the latest window at exactly as many admissions as the limit allows |
| WindowLimits.RateLimitService.CheckRateLimit | src/ratelimit/ratelimit.service.ts:48-84 | counts the request in the record of a window that has not ended, or opens a new one of full length; admits it exactly within the limit of its key, keeps the windows and quotas of the whole admission history, and changes no later request of another key |
| WindowLimits.RateLimitService.AdmissionsBounded | src/ratelimit/ratelimit.service.ts:48-84 | at any moment every key has been admitted at most its limit per window and at most twice that in any interval of that length |
| WindowLimits.RateLimitService.CleanupExpiredRecords | src/ratelimit/ratelimit.service.ts:125-131 | drops exactly the records whose window has ended |
| AuditChain.ChecksumsDistinct | src/audit-log/audit-log.service.ts:35-68 | no two entries of a sequentially written log share a checksum, even with equal payloads |
| AuditChain.LastChecksumBinds | src/audit-log/audit-log.service.ts:41-56 | the last checksum binds the whole log: two written logs agree on it exactly when they are equal |
| AuditChain.LinkedIffAdjacent | src/audit-log/audit-log.service.ts:106-107 | an entry links to another exactly when it comes right before it in the log |
| AuditChain.ValidIffContiguous | src/audit-log/audit-log.service.ts:99-114 | any selection of entries verifies exactly when its positions are consecutive |
| AuditChain.ContiguousIsSlice | src/audit-log/audit-log.service.ts:99-114 | such a selection is a slice of the log |
| AuditChain.CutReportsNextEntry | src/audit-log/audit-log.service.ts:106-110 | cutting out an interior block is reported as exactly the entry after the cut |
| AuditChain.PayloadsAreNotVerified | src/audit-log/audit-log.service.ts:99-114 | rewriting payloads at will changes neither the verdict nor the positions reported |
| AuditChain.AuditLogService.Log | src/audit-log/audit-log.service.ts:35-68 | appends one entry with the payload, the last checksum or GENESIS, and their hash, and keeps the log a written chain |
| AuditChain.AuditLogService.VerifyChainIntegrity | src/audit-log/audit-log.service.ts:99-114 | reports exactly the entries that do not follow their predecessor; valid exactly when all are linked |
| Invalidation.CacheDependencyGraphService.GetInvalidationPatterns | src/common/cache/cache-dependency-graph.service.ts:41-65 | for any match predicate: without repeats, start pattern first, exactly the least set closed under the rules; terminates on cyclic registrations |
| Invalidation.CacheDependencyGraphService.Expand | src/common/cache/cache-dependency-graph.service.ts:45-62 | one turn of the worklist keeps every result needed and every processed pattern closed |
| Invalidation.CacheDependencyGraphService.RegisterDependency | src/common/cache/cache-dependency-graph.service.ts:29-35 | adds exactly the given dependency and forgets none |
| Invalidation.InvalidationGrows | src/common/cache/cache-dependency-graph.service.ts:29-65 | with more dependencies nothing stops being invalidated |
| Invalidation.GlobIffSubstitution | src/common/cache/cache-dependency-graph.service.ts:70-75 | a value matches exactly when it is the pattern with one-line strings in place of the stars |
| Invalidation.GlobReflexive | src/common/cache/cache-dependency-graph.service.ts:48-53 | a one-line pattern matches itself |
| CanonicalJson.NormalFormsDecide | src/queue/message-deduplication.service.ts:127-149 | two values have the same normal form exactly when they have the same content up to key order, null and undefined identified, apart from fields named `__proto__` |
| CanonicalJson.PlainIsStripped | src/queue/message-deduplication.service.ts:140-148 | a value without such fields is compared as a whole |
| CanonicalJson.StrippedIsPlain | src/queue/message-deduplication.service.ts:140-148 | such fields are lost at every depth and nothing else is |
| CanonicalJson.AscendingUnique | src/queue/message-deduplication.service.ts:140-148 | a sorted object is determined by its lookups |
| Deduplication.EvictTakesOldestTenth | src/queue/message-deduplication.service.ts:209-227 | eviction removes exactly a tenth, rounded up, and nothing that stays is older than anything that goes |
| Deduplication.RegisterKeepsBound | src/queue/message-deduplication.service.ts:71-101 | a registration leaves at most the maximum, the new entry among it, drops only oldest entries and changes no other |
| Deduplication.RegisterIsFrugal | src/queue/message-deduplication.service.ts:92-98 | a registration drops nothing unless the cache overflows, and then a tenth, rounded up |
| Deduplication.RegisterInBounds | src/queue/message-deduplication.service.ts:71-101 | on a clock that does not go back, every registration keeps the cache within the maximum, no entry later than the clock, and every expiry one window after its registration |
| Deduplication.PrintsDecide | src/queue/message-deduplication.service.ts:115-122 | without collisions, fingerprints agree exactly when contents do, apart from fields named `__proto__` |
| Deduplication.MessageDeduplicationService.IsDuplicate | src/queue/message-deduplication.service.ts:31-66 | true exactly when some tracked message, under whatever id, has the same content up to key order, apart from fields named `__proto__` |
| Deduplication.MessageDeduplicationService.RegisterMessage | src/queue/message-deduplication.service.ts:71-101 | tracks the message as specified, with both maps on the same keys; at most the maximum is left, the new entry among it; only oldest entries were dropped, and none unless the cache overflowed |
| Deduplication.MessageDeduplicationService.UnregisterMessage | src/queue/message-deduplication.service.ts:106-110 | drops the message from both maps, keeps the order of the rest and the bound |
| Deduplication.MessageDeduplicationService.CleanupOldestEntries | src/queue/message-deduplication.service.ts:209-227 | the loop removes exactly the victims of the specification |
| Deduplication.MessageDeduplicationService.CleanupExpiredEntries | src/queue/message-deduplication.service.ts:183-204 | keeps exactly the messages registered less than a window ago |
| MessageOrdering.QueuesMixIff | src/queue/message-ordering.service.ts:158-160 | two queues can share a partition exactly when one name extends the other by a colon |
| MessageOrdering.SharedId | src/queue/message-ordering.service.ts:158-160 | which partitions they share: the rest of the longer name begins the other key |
| MessageOrdering.PartitionsNeverMix | src/queue/message-ordering.service.ts:158-160 | partition ids of queue names without colons are equal only for equal names and keys |
| MessageOrdering.ColonsMixPartitions | src/queue/message-ordering.service.ts:158-160 | a queue whose name extends another by a colon shares one of its partitions |
| MessageOrdering.SortIsIdentity | src/queue/message-ordering.service.ts:63-64 | on strictly increasing numbers the sort changes nothing |
| MessageOrdering.PushKeepsOrder | src/queue/message-ordering.service.ts:53-64 | a message with the next number goes to the back and stays there through the sort, and numbers stay increasing and within the counter |
| MessageOrdering.MessageOrderingService.AddMessage | src/queue/message-ordering.service.ts:29-71 | appends to the partition's queue under the next number of its counter, filing a new partition under its own name and key; no other partition changes |
| MessageOrdering.MessageOrderingService.GetNextMessage | src/queue/message-ordering.service.ts:76-104 | nothing exactly for an empty or busy partition, and otherwise the head of the queue, which has the lowest number |
| MessageOrdering.MessageOrderingService.MarkPartitionProcessing | src/queue/message-ordering.service.ts:109-123 | sets the flag of an existing partition and changes no queue |
| MessageOrdering.MessageOrderingService.RemoveMessage | src/queue/message-ordering.service.ts:128-153 | removes the earliest message with the id and keeps every other one at its place in the order; false exactly when there is none |
| MessageOrdering.MessageOrderingService.ClearPartition | src/queue/message-ordering.service.ts:241-257 | empties one queue, restarts its numbering, and leaves the others |
| MessageOrdering.MessageOrderingService.CleanupEmptyPartitions | src/queue/message-ordering.service.ts:262-278 | forgets exactly the idle empty partitions, returns their number, and leaves every queue as it was |
| Drawdown.CalculateMaxDrawdown | src/advanced-analytics/services/portfolio-risk-scoring.service.ts:133-150 | the one-pass result is the maximum loss over all pairs of an earlier and a later day, and lies in [0, 1) |
| Drawdown.HigherPeak | src/advanced-analytics/services/portfolio-risk-scoring.service.ts:139-147 | the relative loss against a higher peak is at least as large, and never total |

## Left out

- Controllers, modules, guards, DTO validators, configuration, tracing, logging, events and websocket broadcasts: wiring without state to reason about.
- Authentication, KYC, analytics, monitoring, load balancing, governance, AMM, margin and insurance services: not part of this model.
- Zero loss: replication nodes, error texts and timestamps other than `completedAt`; `leaseUntil` is written but never read.
- LeaseRaces.TwoWorkersIff: decides the first delete that takes the lease of an active operation; what further retries can do after one that did no harm by itself is not decided. A worker that has acknowledged no longer counts as running.
- ZeroLossService.ZeroLossMessageService.RenewProcessingLease: treats GET and EXPIRE as one step; LeaseRaces.RenewalExtendsOwnIff has the two commands. Persist and cleanup are modelled per call only.
- ZeroLoss.HandOutsBounded: is about the grain of calls; at the grain of commands the bound is in ZeroLossCommands.HandOutsWithinAllowance.
- Zero loss: a lease names the operation that took it, where the code stores the instance; an instance works on a message through one claim at a time.
- Bridges: the Ethereum payout is external and counts as no payment; no code in the repository sets SOURCE_CONFIRMED, so no step does. A save after the commit writes the whole stale copy of the row, so the counter of a bridge that no longer awaits approvals may be stale. Modelled as a state machine over values instead of a class, because the subject is the interleaving of calls.
- Orders: BUY orders reserve nothing, as in the code. `averageFillPrice`, trade rows, expiry and the values of trailing references are not modelled; a limit order modified down to its filled amount is matched with a fill of zero, where the average price of an order with nothing filled would be undefined.
- ConcurrentOrders.ConcurrentPlacementsUncrossedIff: covers two placements of opposite sides; concurrent modifications, and orders of the same side that wait for each other's makers, are not modelled.
- Orders: other services that write `lockedBalance` (margin, bulk trading, copy trading) are not part of this model. Amounts are real numbers, so decimal rounding is not modelled.
- OrderLedger.RunKeepsInv: covers place, cancel, modify and trigger; the save of a trailing stop is in TrailingStops, with the exact condition under which it keeps the laws.
- OrdersService.OrdersService.Trigger: is stated for stop orders, the only ones its caller passes; the price tests that lead to it are left out.
- Cycles: only tools/analyze-simple.js is modelled; building the dependency map from files is left out.
- TokenBucket: capacity at least zero, refill rate above zero and one monotone clock; with a rate of zero the script divides by zero. The sliding-window fallback is left out. Tokens are real numbers.
- WindowLimits: one monotone clock; the limit of a key is fixed within a run, so a changing role multiplier is not modelled. Headers and bypassed paths are left out.
- AuditChain: the hash is a parameter, assumed free of collisions and never equal to the genesis marker; appends are sequential. Field diffs, CSV export and queries are left out.
- Invalidation: the glob is stated for patterns without `?`, which the code leaves unescaped and which then acts as a quantifier. GetInvalidationPatterns holds for every match predicate.
- Deduplication: plain JSON data; hash and serialisation are one function of the normal form, assumed free of collisions where duplicates are decided. The feature flag is taken as enabled, and the clock as monotone where eviction keeps the newest entry.
- MessageOrdering: the feature flag is taken as enabled; timestamps and statistics are left out.
- Drawdown.CalculateMaxDrawdown: positive values only; a peak of zero makes the code divide by zero.
