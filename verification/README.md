# Wallet ledger verification

A Dafny model of the wallet's ledger and of the state machines that run on it, with proofs. The
database is one value (`Ledger.Tables`) and one class over it (`Repositories.Database`); each
database transaction is an operation with the error it returns (`Check`) and what it commits
(`Effect`). The repositories' methods are proved against these two functions, and the guarantees
below are proved about every history, run or interleaving of them.
`dafny verify dfyconfig.toml` checks the whole project.

## What is modelled

- **Ledger** (`Domain`, `Totals`, `Ledger`, `Query`, `Database`, `Books`, `Records`): transfers,
  withdrawal holds, approvals, settlements and deposit credits as balanced postings; balances are
  sums. The books reconcile and outbox and journal are exact logs in every reachable state.
- **Broadcast protocol** (`Text`, `Protocol`, `ProtocolProof`, `Payouts`, `Receipts`,
  `FirstCustomer`, `FirstPayout`): claim, build, sign, persist, send, mark, settle as single steps,
  with a crash possible between any two, every transaction other processes may commit in between,
  and a chain with a mempool, mining into numbered blocks, reorganizations and a finalized block.
  Transaction hashes are injective; signing may give any bytes that decode to the payment.
- **Broadcaster process** (`Progress`, `Broadcaster`): the iteration, drain loop, receipt poll and
  stuck detection as imperative code. Any transaction may fail to begin, be lost at commit, or
  commit without saying so; the rest of the world moves between any two statements. Each method is
  proved to be a run of the protocol, so the protocol's theorems hold of the code.
- **Concurrency** (`LockOrder`, `Plans`, `CreditLocks`, `Interleaving`, `Serial`): the API's and the
  broadcaster's transactions and the watchers' crediting, one statement at a time under row locks,
  foreign-key locks and unique-key waits. A commit writes without looking again; that it never has
  to is the theorem. A poll promotes, selects what to credit once, inserts, and commits.
- **Deposits** (`CallTree`, `Scan`, `Polls`, `Watcher`, `DepositHistory`, `Crediting`): the call-tree
  walk, the scanner, the poll and its reorg check, and whole histories of polls.
- **Paging** (`Cursor`, `Paging`, `LedgerPages`): the signed page cursor, the walk over its pages, and
  the walk over the ledger itself while transactions commit between its requests.
- **Idempotency** (`Idempotency`, `Middleware`): concurrent requests over one key store, as a state
  machine and as code that is proved to be a run of it.

## What the proofs found

- `internal/core/track_deposits.go:124-126`: the reorg check is commented out, against the comment
  above it and the tests. The check's own contract and the poll with it in place are proved;
  `Execute` is modelled as shipped. A deposit of a replaced block that the check would orphan is
  then treated like any other: credited exactly when its block is at or below the polled finalized
  tag, its policy, address and accounts exist, and it is among the 500 selected.
- `internal/adapter/postgres/migrations/0011_add_broadcaster_signing_and_treasury.sql:5-18` seeds
  next_nonce with 0. Taking "nonce too low" for success is right exactly when the wallet has no
  transaction at or above the seeded nonce.
- `internal/adapter/evm/broadcaster.go:267-296` reads the receipt before the finalized tag and
  compares block numbers only. A found answer is right whatever happens between the reads exactly
  when the receipt's block was finalized at the first. Otherwise it takes one more header: the hash
  of the canonical block at that number settles the answer exactly when it is the receipt's own.
  Reading the tag first would always be right.
- `internal/adapter/postgres/deposit_repo.go:307-411` credits in block order, and inserting a posting
  takes a KEY SHARE lock on its account through the foreign key. A batch can deadlock with callers'
  transactions exactly when a deposit to one account comes before the first deposit to a lower
  account of the same chain and asset; PostgreSQL then aborts one of them.
- `internal/adapter/api/middleware_idempotency.go:125-129`: a commit that succeeds while reporting an
  error is answered with 500 although the handler's transaction is durable. Non-2xx answers leave
  nothing behind exactly in the runs where that does not happen.
- `internal/adapter/postgres/transaction_repo.go:195-207` pages by creation time and then generated
  id, both taken before the commit. An entry committed after a page was read lands below its cursor
  exactly when it is stamped earlier than the page's last entry, or at the same time with a smaller
  id; the walk then returns more than the history it began with, and is that history otherwise.
- `internal/adapter/postgres/deposit_repo.go:241-257` orphans a row in any state; that only pending
  rows are orphaned is proved of its one caller.
- Where comments and code differ elsewhere the code is followed: the stuck-candidate query also
  takes signed rows.

## Assumptions

One broadcaster and one watcher per chain (`cmd/walletd/main.go:572-593`), one mined transaction per
nonce, no reorganization of a receipt's block between the two reads of one receipt check, finalized
blocks never replaced, trace support fixed for the life of a scanner, unique keys as the migrations
declare them, row ids unique.

## Model

| member | source | states |
|---|---|---|
| `Payouts.PayoutSafety` | internal/core/sign_and_broadcast_withdrawal.go:69-227 | in every state of every run (crashes, lost and unreported commits, resends, reorgs): confirmed or moved to the treasury only if the withdrawal's own transaction is finalized and succeeded; failed or released only if it is finalized and reverted; never both paid and released |
| `Payouts.EachPaymentIsOneWithdrawal` | internal/core/sign_and_broadcast_withdrawal.go:150-227 | every transaction of the wallet in a block is the payment of exactly one withdrawal, to its destination, of its amount and asset, and no withdrawal's bytes are in two blocks |
| `Payouts.KnownMeansOwn` | internal/core/sign_and_broadcast_withdrawal.go:203-252 | when the node says "already known" or "nonce too low", what occupies that nonce is this withdrawal's own persisted transaction, accepted before |
| `FirstPayout.FreshWalletDecides` | internal/adapter/postgres/migrations/0011_add_broadcaster_signing_and_treasury.sql:2-18 | over all runs from databases some history leads to, status broadcast always means accepted if and only if the wallet has no transaction at or above the seeded next_nonce |
| `FirstPayout.StaleWalletRun` | internal/core/sign_and_broadcast_withdrawal.go:203-252 | the run, from a first customer's reachable database, in which an older wallet's "nonce too low" is taken for success and the payout is never sent |
| `Payouts.OneStringPerWithdrawal` | internal/core/sign_and_broadcast_withdrawal.go:150-207 | every byte string ever sent for one withdrawal is the same string, and no string serves two |
| `Payouts.DurableBeforeSend` | internal/core/sign_and_broadcast_withdrawal.go:165-207 | bytes are in signed_tx, under their own hash, before they are handed to the node, and in every later state |
| `Payouts.DurableForever` | internal/adapter/postgres/withdrawal_repo.go:574-606 | bytes once stored for a withdrawal never change |
| `Payouts.NoncesContiguous` | internal/adapter/postgres/withdrawal_repo.go:467-565 | allocated nonces are exactly seeded .. next_nonce - 1, one per claimed withdrawal; at most one is signed, it holds the highest, and every other claimed one is broadcast or settled |
| `Receipts.HashDecides` | internal/adapter/evm/broadcaster.go:267-296 | for any hash: in every later chain state in which the answer is found and the canonical block at the receipt's number has that hash the answer is final, if and only if it is the receipt's own block hash or the block was finalized already at the first read |
| `Receipts.CanonicalIsFinal` | internal/adapter/evm/broadcaster.go:267-296 | when the canonical block at the receipt's number still has the receipt's hash at the second read, a found answer is the transaction's final outcome and the opposite one is not |
| `Receipts.ReadOrderDecides` | internal/adapter/evm/broadcaster.go:267-296 | a found answer is right whatever the chain does between the reads if and only if the receipt's block was already finalized when the receipt was read |
| `Receipts.TagFirstIsRight` | internal/adapter/evm/broadcaster.go:267-296 | reading the finalized number first and the receipt second is always right, in every later chain state |
| `FirstPayout.TornReceiptRun` | internal/adapter/evm/broadcaster.go:267-296 | a run of a fresh wallet, from a reachable database, in which the two reads report success for a payout that has finally reverted, and the settlement to confirmed would commit |
| `ProtocolProof.NextKeepsInv` | internal/core/sign_and_broadcast_withdrawal.go:69-227 | the invariant behind all of these survives every step of the broadcaster, of other processes and of the chain |
| `ProtocolProof.OccupiedMeansAccepted` | internal/core/sign_and_broadcast_withdrawal.go:229-245 | under the invariant an occupied nonce is occupied by the withdrawal's own accepted bytes |
| `ProtocolProof.ReceiptIsOwn` | internal/core/poll_withdrawal_receipts.go:61-82 | a final receipt under the recorded hash is the outcome of the withdrawal's own bytes at its own nonce |
| `ProtocolProof.PersistStep` | internal/core/sign_and_broadcast_withdrawal.go:165-190 | recording the bytes keeps the invariant and makes them the row's durable bytes |
| `ProtocolProof.ClaimStep` | internal/adapter/postgres/withdrawal_repo.go:467-565 | claiming with nothing to resume keeps the invariant |
| `ProtocolProof.OtherUntouched` | cmd/walletd/main.go:572-593 | with one broadcaster per chain no other process's transaction moves a nonce, an attempt or the status of a claimed row |
| `Broadcaster.Process.Execute` | internal/core/sign_and_broadcast_withdrawal.go:69-143 | one iteration, whatever fails: resume before claim; no nonce unless claiming is allowed; success means one withdrawal delivered and the backlog lower; nothing found means nothing signed, and with claiming allowed nothing approved |
| `Broadcaster.Process.ListSigned` | internal/core/sign_and_broadcast_withdrawal.go:69-103 | the row found is resumable with its stored payment and bytes, and finding none means there is none to resume |
| `Broadcaster.ListingComplete` | internal/adapter/postgres/withdrawal_repo.go:673-761 | the limit of 50 and the skipped undecodable rows never hide the row to resume |
| `Broadcaster.Process.SignAndSend` | internal/core/sign_and_broadcast_withdrawal.go:150-194 | build, sign, assemble, persist, then send: every exit is a run of the machine, success means delivered |
| `Broadcaster.Process.SendAndFinalize` | internal/core/sign_and_broadcast_withdrawal.go:203-227 | send the stored bytes; an accepted or already-known answer leads to broadcast, any other leaves the row signed |
| `Broadcaster.Process.CommitClaim` | internal/core/sign_and_broadcast_withdrawal.go:105-139 | a lost or unreported claim commit moves next_nonce by at most one, and a claim reported is signed with its nonce |
| `Broadcaster.Process.CommitSigned` | internal/core/sign_and_broadcast_withdrawal.go:165-190 | on success the bytes are durable and only then is the process ready to send |
| `Broadcaster.Process.CommitMark` | internal/core/sign_and_broadcast_withdrawal.go:208-226 | a reported commit leaves the row broadcast with its bytes accepted and the backlog one lower |
| `Broadcaster.Process.Drain` | cmd/walletd/main.go:716-727 | the drain loop stops with finitely many approvals still to come; its count is bounded by what was pending; without failure nothing is left signed, nor approved when live |
| `Broadcaster.Process.PollReceipts` | internal/core/poll_withdrawal_receipts.go:43-86 | every broadcast row is checked once whatever fails; the counts are what moved, up to unreported commits; broadcast, confirmed and failed together are conserved |
| `Broadcaster.Process.CheckReceipt` | internal/core/poll_withdrawal_receipts.go:58-82 | one row: not final leaves the tally, final moves exactly this row, an error moves at most this row |
| `Broadcaster.Process.CommitSettle` | internal/core/poll_withdrawal_receipts.go:92-111 | a settlement transaction moves exactly its own row, or nothing when it rolls back |
| `Broadcaster.Process.DetectStuck` | internal/core/detect_stuck_withdrawals.go:46-71 | alerted plus errors is checked; without errors every overdue signed or broadcast row ends alerted |
| `Broadcaster.Process.MarkAlerted` | internal/core/detect_stuck_withdrawals.go:77-96 | a reported alert is durable; a refused or failed one changes nothing |
| `Broadcaster.Process.Tick` | cmd/walletd/main.go:689-756 | one tick never allocates a nonce while the watcher is not live |
| `Broadcaster.Client.SendRawTransaction` | internal/adapter/evm/broadcaster.go:247-260 | any answer the node contract allows, including a refusal that hides an acceptance |
| `Broadcaster.Process.GetFinalizedReceipt` | internal/adapter/evm/broadcaster.go:267-296 | receipt, then finalized header, with everything but the loss of the receipt's block in between: found means final at the second read with that outcome, and a receipt final before the first read is found |
| `Broadcaster.Client.TransactionReceipt` | internal/adapter/evm/broadcaster.go:272-278 | the receipt of the transaction if it is in a block, nothing and no error if it is not |
| `Broadcaster.Client.BuildAndSign` | internal/adapter/evm/broadcaster.go:121-243 | arbitrary bytes that decode to the payment asked for, or an error |
| `Progress.BacklogStep` | cmd/walletd/main.go:716-727 | approvals raise approved-plus-signed by one, marking broadcast lowers it by one, nothing else moves it |
| `Text.StoredRoundTrip` | internal/adapter/postgres/withdrawal_repo.go:727-737 | stored hex text, prefix trimmed, decodes to exactly the bytes persisted |
| `Text.HexRoundTrip` | internal/core/sign_and_broadcast_withdrawal.go:183-183 | hex encoding is inverted by decoding, at two characters a byte |
| `Books.AlwaysReconciled` | internal/adapter/postgres/withdrawal_repo.go:254-312 | in every history: hold balance equals the unsettled withdrawals, treasury the confirmed ones, float minus the credited deposits, available never negative, every entry sums to zero |
| `Books.Conservation` | internal/adapter/postgres/transfer_repo.go:103-142 | in every history, per chain and asset with a treasury and a float, what customers are owed is the credited deposits less the confirmed withdrawals |
| `Books.PairsBalanced` | internal/adapter/postgres/transfer_repo.go:103-142 | per chain and asset the postings sum to zero |
| `Books.ReconciledStep` | internal/adapter/postgres/withdrawal_repo.go:836-1012 | every single transaction keeps the books reconciled |
| `Books.BalanceStep` | internal/adapter/postgres/transfer_repo.go:103-142 | a transaction changes a balance by exactly its two legs |
| `Records.AlwaysExact` | internal/adapter/postgres/withdrawal_repo.go:977-997 | in every history the outbox holds exactly the events the rows call for, each once, and the journal exactly the entries they call for |
| `Records.ApprovalGate` | internal/core/create_withdrawal.go:53-101 | every withdrawal is one committed request with its terms unaltered; it leaves approval only if it was at or below the threshold when requested, or by an approval naming the actor on the row |
| `Records.CreditedAtMostOnce` | internal/adapter/postgres/deposit_repo.go:86-138 | per on-chain key at most one row is ever credited, with exactly one journal entry and one event |
| `Records.TerminalStates` | internal/core/track_deposits.go:275-308 | credited and orphaned are terminal and no row is lost; for orphaning this rests on its one caller, which passes pending rows only, the statement itself having no state guard |
| `Records.CreditedOnlyFinal` | internal/adapter/postgres/deposit_repo.go:161-173 | no deposit is finalized or credited unless its block was at or below a polled finalized tag |
| `Repositories.Database.CreateTransfer` | internal/adapter/postgres/transfer_repo.go:31-153 | the statements return the transfer's error, or commit its effect, and leave all tables on error |
| `Repositories.Database.CreateWithdrawal` | internal/adapter/postgres/withdrawal_repo.go:173-363 | validation, balance and fee checks, hold entry, row with threshold-routed status, and event |
| `Repositories.Database.ApproveWithdrawal` | internal/adapter/postgres/withdrawal_repo.go:373-458 | only an awaiting row is approved, with its event |
| `Repositories.Database.ClaimApprovedWithdrawal` | internal/adapter/postgres/withdrawal_repo.go:467-565 | the oldest approved row gets the next nonce and an attempt; none leaves everything |
| `Repositories.Database.RecordSignedTx` | internal/adapter/postgres/withdrawal_repo.go:574-606 | bytes and hash are recorded only on a signed row with an attempt |
| `Repositories.Database.MarkBroadcast` | internal/adapter/postgres/withdrawal_repo.go:615-662 | only a signed row with a recorded hash becomes broadcast |
| `Repositories.Database.ListSignedWithdrawals` | internal/adapter/postgres/withdrawal_repo.go:694-761 | up to 50 signed rows, oldest first, exactly those whose stored bytes decode |
| `Repositories.Database.ListBroadcastWithdrawals` | internal/adapter/postgres/withdrawal_repo.go:766-812 | exactly the broadcast rows with a hash, each once |
| `Repositories.Database.SettleWithdrawal` | internal/adapter/postgres/withdrawal_repo.go:836-1012 | only a broadcast row settles; its hold moves to the treasury or back, with entry and event |
| `Repositories.Database.ListStuckCandidates` | internal/adapter/postgres/withdrawal_repo.go:1038-1095 | exactly the overdue, unalerted signed or broadcast rows |
| `Repositories.Database.MarkStuckAlerted` | internal/adapter/postgres/withdrawal_repo.go:1109-1177 | a row is alerted at most once, with its event |
| `Repositories.Database.RecordObserved` | internal/adapter/postgres/deposit_repo.go:86-138 | a row and its event unless an active row holds the key |
| `Repositories.Database.PromoteToSafe` | internal/adapter/postgres/deposit_repo.go:143-155 | the bulk update moves exactly the observed rows at or below the tag and counts them |
| `Repositories.Database.PromoteToFinalized` | internal/adapter/postgres/deposit_repo.go:161-173 | the bulk update moves exactly the safe rows at or below the tag and counts them |
| `Repositories.Database.ListPendingDeposits` | internal/adapter/postgres/deposit_repo.go:188-236 | the 500 lowest pending rows of the chain |
| `Repositories.Database.OrphanDeposit` | internal/adapter/postgres/deposit_repo.go:241-275 | orphans any existing row with its event; a missing row is an error and no event |
| `Repositories.Database.CreditFinalizedDeposits` | internal/adapter/postgres/deposit_repo.go:307-439 | credits the 500 lowest eligible rows, all of them when it returns no error |
| `Repositories.Database.LockAccounts` | internal/adapter/postgres/transfer_repo.go:50-77 | exactly the wanted accounts that exist |
| `Repositories.Database.SumPostings` | internal/adapter/postgres/transfer_repo.go:88-94 | the derived balance |
| `Serial.Serializable` | internal/adapter/postgres/transfer_repo.go:34-142 | after any interleaving of callers' lock-, look- and commit-steps with the polls' select-, insert- and commit-steps the tables are those of the committed transactions run one by one in commit order |
| `Serial.CommitsAsChecked` | internal/adapter/postgres/withdrawal_repo.go:176-299 | at the instant of its commit every check a transaction made still holds |
| `Serial.PollCommitsAsSelected` | internal/adapter/postgres/deposit_repo.go:307-439 | a poll looks at eligibility once, when selecting; whatever commits before it does, at its commit every selected deposit can still be credited and exactly its promotions and those credits are written |
| `Serial.CreditsNeverCollide` | internal/adapter/postgres/deposit_repo.go:365-376 | no insert of a poll ever finds its deposit journaled already |
| `Serial.RequestKeyFree` | internal/adapter/postgres/idempotency_store.go:44-60 | a transaction about to commit holds an idempotency key nobody has committed |
| `Serial.NeverOverdrawn` | internal/adapter/postgres/transfer_repo.go:34-142 | no interleaving of transfers, withdrawals, settlements and credits makes an available balance negative, the books unreconciled, or the outbox or journal inexact |
| `Serial.CheckedBalanceHolds` | internal/adapter/postgres/transfer_repo.go:41-46 | the balance checked under the lock stays covered for as long as the transaction is open |
| `Serial.ErrorsExact` | internal/adapter/postgres/withdrawal_repo.go:176-299 | a check that fails gives the error the whole transaction would give if run alone at that instant |
| `Serial.SomeoneMoves` | internal/adapter/postgres/transfer_repo.go:34-55 | in every reachable state with open transactions, callers' or polls', some transaction can take its next lock, check or commit, unless an open poll credits a higher account before a lower one of the same chain and asset; with no poll open the waits are acyclic |
| `Serial.BalanceKept` | internal/adapter/postgres/transfer_repo.go:41-46 | only a transaction holding an account's lock can lower its balance |
| `Plans.PlanOrdered` | internal/adapter/postgres/withdrawal_repo.go:839-884 | every transaction locks in the order withdrawal row, nonce row, accounts by id, journal key, idempotency key |
| `Interleaving.GuardsAreCheck` | internal/adapter/postgres/withdrawal_repo.go:176-299 | the statement-by-statement checks together are the transaction's check, first failure first |
| `LockOrder.WaitsAcyclic` | internal/adapter/postgres/transfer_repo.go:34-55 | with ordered locks the wait-for relation has no cycle |
| `LockOrder.SomeoneAdvances` | internal/adapter/postgres/withdrawal_repo.go:176-191 | among any set of transactions with ordered locks one has them all or can take its next |
| `CreditLocks.CreditOrderDecides` | internal/adapter/postgres/deposit_repo.go:307-411 | a crediting batch can deadlock with some set of callers' transactions, through the foreign-key locks its postings leave, if and only if a deposit to one account comes before the first deposit to a lower account of the same chain and asset |
| `CreditLocks.StuckMeansInverted` | internal/adapter/postgres/deposit_repo.go:307-411 | whatever callers and polls are open, a set of them that wait only for each other contains a poll that credits a higher account before the first deposit to a lower one of the same chain and asset |
| `CallTree.Walker.Walk` | internal/adapter/evm/scanner.go:383-424 | the mutable walk appends exactly the collected transfers and advances the index by the number of frames |
| `CallTree.WalkExact` | internal/adapter/evm/scanner.go:350-433 | recorded exactly: non-root CALL frames with positive value to a known address and no error on themselves or any ancestor, under log index -2 minus pre-order number |
| `CallTree.RankIsOrder` | internal/adapter/evm/scanner.go:343-349 | a frame's number is its position in depth-first order, distinct for distinct frames |
| `CallTree.EveryRankTaken` | internal/adapter/evm/scanner.go:343-349 | every number below the number of frames is some frame's |
| `CallTree.RankIsShape` | internal/adapter/evm/scanner.go:409-419 | numbers depend on the tree's shape alone, not on reverts, values or known addresses |
| `CallTree.IndicesDescend` | internal/adapter/evm/scanner.go:343-349 | within a trace indices strictly descend from -2, never meeting -1, a real log index or each other |
| `Scan.Scanner.ScanDeposits` | internal/adapter/evm/scanner.go:230-255 | returns a transfer if and only if some block of the range holds it |
| `Scan.Scanner.ScanNativeTransfers` | internal/adapter/evm/scanner.go:272-315 | the block and transaction loops build the range's native and internal transfers in order |
| `Scan.Scanner.ScanInternalTransfers` | internal/adapter/evm/scanner.go:350-433 | per block, all traces or none once tracing is disabled |
| `Scan.Scanner.ScanErc20Transfers` | internal/adapter/evm/scanner.go:450-545 | well-formed logs split into supported transfers and unsupported observations |
| `Scan.RangeExact` | internal/adapter/evm/scanner.go:230-315 | the concatenated lists hold exactly what the blocks of the range hold |
| `Scan.KeysUnique` | internal/adapter/evm/scanner.go:343-349 | on a chain's history one (chain, tx hash, log index) is one transfer, across native, internal and token transfers |
| `Watcher.TrackDeposits.Execute` | internal/core/track_deposits.go:74-251 | the shipped poll: inconsistent tags or a cursor ahead of the head fail, any failure rolls back, success is the history scan, promote, credit |
| `Watcher.TrackDeposits.CheckForReorgs` | internal/core/track_deposits.go:260-311 | each needed height asked once; exactly the listed deposits with a known, different or missing hash are orphaned |
| `Watcher.TrackDeposits.ExecuteWithReorgCheck` | internal/core/track_deposits.go:118-126 | the intended poll: the same transaction with the check as its first phase |
| `Watcher.TrackDeposits.ScanPhase` | internal/core/track_deposits.go:128-205 | the next range, at most 2000 blocks, is recorded and the observed cursor moves to its end |
| `Watcher.TrackDeposits.RecordAll` | internal/core/track_deposits.go:151-180 | every transfer is offered once and the count is the number of new rows |
| `DepositHistory.PollSynced` | internal/core/track_deposits.go:128-205 | a successful poll keeps the recorded deposits exactly what one scan of blocks 1 to the cursor finds |
| `DepositHistory.PollLoop` | cmd/walletd/main.go:438-473 | over any polls, failures and other processes' transactions the committed ranges are contiguous, at most 2000 blocks, and the records stay exact |
| `DepositHistory.CatchUp` | internal/core/track_deposits.go:139-146 | over any successful polls with other processes' transactions between them the records stay one scan up to the cursor; with the head at target, k polls reach it exactly when k is at least the ceiling of the backlog over 2000; with a moving head they are never further behind |
| `DepositHistory.ElsewhereKeeps` | internal/core/track_deposits.go:107-117 | other processes' transactions leave the chain's records and cursor alone |
| `Polls.ObservedExactly` | internal/adapter/postgres/deposit_repo.go:86-138 | observing a batch records all of it and nothing else |
| `Polls.StaleExact` | internal/core/track_deposits.go:275-308 | the uncached check selects exactly the stale ones of the listing |
| `Crediting.EligibleIsCreditable` | internal/adapter/postgres/deposit_repo.go:349-376 | on every reachable database crediting an eligible deposit cannot fail |
| `Crediting.PollDrains` | internal/adapter/postgres/deposit_repo.go:283-347 | every successful poll credits 500 of what is eligible after its promotions, or all of it |
| `Crediting.CreditsDrain` | internal/adapter/postgres/deposit_repo.go:283-347 | n eligible deposits are all credited after exactly the ceiling of n over 500 polls, whatever bystanders commit in between, as long as no poll promotes a deposit to finalized |
| `Crediting.CheckOrphansStale` | internal/core/track_deposits.go:275-308 | the check orphans the listed stale deposits and changes no other row |
| `Crediting.OrphanedNeverCredited` | internal/core/track_deposits.go:118-126 | in the intended poll a deposit orphaned by the check is neither promoted nor credited |
| `Crediting.ShippedPollExact` | internal/core/track_deposits.go:128-245 | for every pending deposit: after the shipped poll it is observed, safe, finalized or credited exactly as its block compares with the polled safe and finalized tags, its policy, address and accounts exist, and it is among the 500 selected |
| `Crediting.ShippedOnStale` | internal/core/track_deposits.go:118-126 | for every listed stale deposit: the intended poll leaves it orphaned; the shipped one credits it if and only if its block is at or below the finalized tag, its joins exist and it is selected, and leaves its state alone if and only if its block is above the tag of its next state |
| `Crediting.ShippedAgreesIffNothingStale` | internal/core/track_deposits.go:118-126 | the shipped and the intended poll start from the same tables when no listed deposit is stale, and otherwise no outcome of one is an outcome of the other |
| `Crediting.ShippedCreditsReplacedBlock` | internal/core/track_deposits.go:124-126 | from a first customer's reachable database, for any chain and amount, a shipped poll credits a listed deposit whose block was replaced |
| `Cursor.CursorRoundTrip` | internal/adapter/postgres/transaction_repo.go:51-132 | a minted cursor opens to its own triple for its own customer and for no other, exactly when the customer id is free of the separator |
| `Cursor.OpenedIsSigned` | internal/adapter/postgres/transaction_repo.go:92-132 | whatever opens carries the MAC of its own payload and names its reader |
| `Cursor.Base64RoundTrip` | internal/adapter/postgres/transaction_repo.go:65-73 | unpadded base64url decoding inverts encoding on all bytes |
| `Cursor.SplitJoin` | internal/adapter/postgres/transaction_repo.go:65-73 | splitting inverts joining of separator-free fields |
| `Cursor.SplitCount` | internal/adapter/postgres/transaction_repo.go:114-117 | splitting gives one field more than there are separators |
| `Cursor.CutJoined` | internal/adapter/postgres/transaction_repo.go:97-100 | cutting at the first part separator gives back payload and tag |
| `Paging.ListCustomerTransactions` | internal/adapter/postgres/transaction_repo.go:162-254 | the first page-size rows below the cursor in descending key order, with a cursor exactly when more follow; unknown customer and bad cursor are errors |
| `Paging.WalkPages` | internal/adapter/postgres/transaction_repo.go:162-254 | following next cursors gives the whole history once, in order, in the ceiling of n over page size requests (one for none), whatever is inserted above the cursor meanwhile |
| `Paging.InsertAbove` | internal/adapter/postgres/transaction_repo.go:162-254 | rows inserted at or above a cursor leave what lies below it unchanged |
| `Paging.OneList` | internal/adapter/postgres/transaction_repo.go:195-207 | the descending order of a customer's rows is unique |
| `LedgerPages.WalkIsHistory` | internal/adapter/postgres/transaction_repo.go:162-254 | following next cursors over a ledger that moves between requests returns the history as it was at the first request if and only if no commit of the walk undercuts the cursor just given out: an entry the customer sees, stamped earlier, or at the same time with a smaller id; in any case no row of that history is missed, none comes twice, and the order holds |
| `LedgerPages.WalkLedger` | internal/adapter/postgres/transaction_repo.go:162-254 | the client loop over the endpoint, page by page with opaque cursors, returns exactly those rows |
| `LedgerPages.LateCommit` | internal/adapter/postgres/transaction_repo.go:195-207 | on a database a first customer's history leads to, a hold committed after the first page changes the walk exactly when it is stamped earlier than the entry on that page, or at the same time with a smaller id |
| `LedgerPages.RestStays` | internal/adapter/postgres/transaction_repo.go:195-207 | over any history, what a reader of the ledger has still to see stays the same if and only if no transaction of it undercuts the cursor |
| `LedgerPages.CommitLandsBelow` | internal/adapter/postgres/transaction_repo.go:195-207 | one transaction changes what a reader has still to see if and only if it commits an entry the customer sees that sorts below the cursor by time and then id; it only ever adds |
| `LedgerPages.RowsDistinct` | internal/adapter/postgres/transaction_repo.go:195-207 | the join gives one row a posting, with distinct sort keys, whatever order the generated ids are in |
| `Idempotency.ExactlyOnce` | internal/adapter/api/middleware_idempotency.go:37-134 | for any interleaving at most one handler transaction per key is durable, exactly when the key is stored; every 2xx answer is the stored response for the stored hash; only 2xx responses are stored |
| `Idempotency.WinnerIsThere` | internal/adapter/api/middleware_idempotency.go:108-119 | a request that loses the race for its key and can read the winner back always finds it |
| `Idempotency.StoredForever` | internal/adapter/postgres/idempotency_store.go:44-60 | a stored key never changes |
| `Idempotency.StoredAnswers` | internal/adapter/api/middleware_idempotency.go:149-155 | a stored key replays to the same request and answers 409 exactly to a different one |
| `Idempotency.FailuresLeaveNothingIff` | internal/adapter/api/middleware_idempotency.go:69-134 | in a run, no request answered with anything but 2xx has ever committed anything, if and only if no commit of the run succeeded while reporting an error |
| `Idempotency.FailedCommits` | internal/adapter/api/middleware_idempotency.go:69-134 | a request answered with anything but 2xx has a commit if and only if one of its steps was a commit that reported an error |
| `Idempotency.LostAnswerRun` | internal/adapter/api/middleware_idempotency.go:125-128 | on any database, for any transaction a handler can commit, the run in which it is durable and stored and the request is answered 500 |
| `Idempotency.FinishIsCommit` | internal/adapter/postgres/idempotency_store.go:44-60 | the commit of a handler's transaction among the concurrent ones is the protocol's commit: its check holds then, its key is new, and both machines have the same tables and keys afterwards |
| `Idempotency.OnlyCommitsWrite` | internal/adapter/api/middleware_idempotency.go:69-134 | tables and stored keys move only together, at a request's commit |
| `Idempotency.NextKeepsInv` | internal/adapter/api/middleware_idempotency.go:37-134 | the protocol invariant survives every step of every request |
| `Middleware.Server.ServeHTTP` | internal/adapter/api/middleware_idempotency.go:37-134 | which requests pass through or are refused, and for the rest one run of the protocol with the guarantees above |
| `Middleware.Server.InsertAndCommit` | internal/adapter/api/middleware_idempotency.go:107-131 | what is replayed is the stored entry of the same request, 409 means another request's entry, and the request's own transaction is durable only if its own response is stored and replayed or its commit reported an error |
| `Middleware.Server.ReadWinner` | internal/adapter/api/middleware_idempotency.go:108-119 | unresolved exactly when the read fails; otherwise the stored entry's replay or 409, with nothing committed |
| `Middleware.Server.CommitHeld` | internal/adapter/api/middleware_idempotency.go:125-131 | the response and the stored entry, or a failed commit |
| `Middleware.ResponseRecorder.Write` | internal/adapter/api/middleware_idempotency.go:193-198 | a bare write means 200 and bodies concatenate |
| `Middleware.ResponseRecorder.WriteHeader` | internal/adapter/api/middleware_idempotency.go:200-206 | only the first status counts |
| `Middleware.ResponseRecorder.Result` | internal/adapter/api/middleware_idempotency.go:208-218 | the captured response, 200 when nothing was written |

## Left out

- Ties in ORDER BY .. LIMIT: rows of equal age come in any order.
- Event payloads, audit columns and timestamps other than created_at: an event is its kind and its row.
- unsupported_token_observations rows: the scanner returns the observations, the poll does not store them.
- Broadcaster.Process.GetFinalizedReceipt: a receipt whose block is replaced between the two reads, for which Receipts and FirstPayout say what then goes wrong.
- Broadcaster.Process.DetectStuck: which rows have waited too long is a parameter, because it is wall-clock time; likewise liveness of the watcher.
- ProtocolProof.NextKeepsInv: a send still in flight when the process dies is accepted at once or not at all, rather than later; the bytes sent again after the restart are the same.
- Broadcaster.Client.BuildAndSign: fee estimation, gas caps, RLP and ABI encoding, low-s form and the key service are one step that may fail or give any bytes for the payment.
- Repositories.Database.CreateWithdrawal: the address-shape check and the fee estimate itself; the estimate is a parameter.
- Fail-loud branches for repository bugs that the repositories' contracts exclude, such as a claimed row without a nonce.
- Plans.PlanOrdered: implicit foreign-key locks other than crediting's, which only fall on rows the transaction has locked already or nobody locks; and SKIP LOCKED when claiming, where a claim waits for its row instead of passing over it.
- Serial.Serializable: provisioning a customer, and a poll's observations, orphanings and observed cursor, commit in one step each, before the poll's promotions and credits rather than with them; only the chain's own watcher writes or checks those rows.
- DepositHistory.PollSynced: completeness across reorganizations, because the cursor never moves back; a fixed history is the one promised.
- Scan.Scanner.ScanInternalTransfers: a trace endpoint that starts failing halfway; tracing works or does not for the life of a scanner.
- Receipt status of top-level native transfers, which the scanner does not read.
- Paging.ListCustomerTransactions: page-size clamping; it pages over a set of rows, which LedgerPages.RowsOf builds from the ledger.
- LedgerPages.WalkLedger: times have no unit and ids are numbers in uuid order; that uuids of version 7 mostly grow with time is not used.
- Cursor.CursorRoundTrip: the MAC, time text and uuid text are functions with their round trips assumed; forgery is out of scope.
- Middleware.Server.ServeHTTP: routing, problem bodies, authentication and SHA-256, which are foreign; a wait for another open insert of the key ends when that one is done or as an error.
- Token registry and address registry maintenance, contracts and deployment scripts.
