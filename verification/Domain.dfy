/**
  The vocabulary every other module shares: chains, assets, accounts, withdrawals, deposits,
  journal causes and outbox events. A row's id is its position in its table, so ids are fresh by
  construction; account ids are arbitrary numbers, because their order decides lock order.
 */
module Domain {
  datatype Option<+T> = None | Some(value: T)

  datatype Result<+T> = Ok(value: T) | Err(error: Error)

  /** The error returns of the repositories and use cases. */
  datatype Error =
    | SelfTransfer
    | NonPositiveAmount
    | AmountTooLarge
    | CustomerNotFound
    | InsufficientBalance
    | InsufficientBalanceForFee
    | DuplicateCause
    | DuplicateAccount
    | WithdrawalNotFound
    | NotAwaitingApproval
    | NotApproved
    | NotSigned
    | NotBroadcast
    | NoSignedTx
    | NoAttempt
    | DuplicateAttempt
    | NoNonceState
    | NoHoldAccount
    | NoTreasuryAccount
    | NoAvailableAccount
    | AlreadyAlerted
    | DepositNotFound
    | DepositAlreadyActive
    | NotPending
    | NotEligible

  type CustomerId = nat
  type AccountId = nat
  type WithdrawalId = nat
  type DepositId = nat
  type Time = nat

  type byte = x: int | 0 <= x < 256
  type Bytes = seq<byte>

  datatype Chain = Base | Arbitrum
  datatype Asset = Eth | Usdc
  datatype AccountKind = Available | Hold | Treasury

  /** The columns of accounts that are unique together; a platform account has no owner. */
  datatype AccountKey = AccountKey(owner: Option<CustomerId>, chain: Chain, asset: Asset, kind: AccountKind)

  function AvailableOf(c: CustomerId, chain: Chain, asset: Asset): AccountKey {
    AccountKey(Some(c), chain, asset, Available)
  }

  function HoldOf(c: CustomerId, chain: Chain, asset: Asset): AccountKey { AccountKey(Some(c), chain, asset, Hold) }

  function TreasuryOf(chain: Chain, asset: Asset): AccountKey { AccountKey(None, chain, asset, Treasury) }

  /** The forwarder float is the platform's own row of kind available. */
  function FloatOf(chain: Chain, asset: Asset): AccountKey { AccountKey(None, chain, asset, Available) }

  datatype Status = AwaitingApproval | Approved | Signed | Broadcast | Confirmed | Failed

  datatype Withdrawal = Withdrawal(
    customer: CustomerId,
    chain: Chain,
    asset: Asset,
    amount: nat,
    destination: string,
    status: Status,
    createdAt: Time,
    approvedBy: Option<string>,
    nonce: Option<nat>,
    txHash: Option<string>,
    stuckAlerted: bool)
  {
    predicate Settled() { status == Confirmed || status == Failed }

    /** A nonce has been allocated to this row. */
    predicate Claimed() { status == Signed || status == Broadcast || Settled() }
  }

  /** A row of broadcast_attempts; withdrawal_id is its unique key. */
  datatype Attempt = Attempt(nonce: nat, txHash: Option<string>, signedTx: Option<string>)

  datatype DepositState = Observed | Safe | Finalized | Credited | Orphaned

  /** What a scanner finds on chain, before it is a row. */
  datatype Transfer = Transfer(
    chain: Chain,
    asset: Asset,
    address: string,
    txHash: string,
    logIndex: int,
    amount: nat,
    block: nat,
    blockHash: string)

  datatype Deposit = Deposit(transfer: Transfer, state: DepositState) {
    predicate Pending() { state == Observed || state == Safe }
  }

  /** (chain, tx_hash, log_index): the on-chain identity of a transfer. */
  datatype DepositKey = DepositKey(chain: Chain, txHash: string, logIndex: int)

  function KeyOf(x: Transfer): DepositKey { DepositKey(x.chain, x.txHash, x.logIndex) }

  datatype Tier = ObservedTier | SafeTier | FinalizedTier

  /** (cause_type, cause_id) of a journal entry. */
  datatype Cause =
    | InternalTransfer(key: string)
    | WithdrawalHold(key: string)
    | WithdrawalSettlement(w: WithdrawalId)
    | WithdrawalFailure(w: WithdrawalId)
    | DepositCredit(d: DepositId)

  datatype Entry = Entry(cause: Cause, createdAt: Time)

  datatype Posting = Posting(entry: nat, account: AccountId, amount: int)

  datatype Event =
    | ApprovalRequired(w: WithdrawalId)
    | WithdrawalApproved(w: WithdrawalId)
    | WithdrawalConfirmed(w: WithdrawalId)
    | WithdrawalFailed(w: WithdrawalId)
    | WithdrawalStuck(w: WithdrawalId)
    | DepositPending(d: DepositId)
    | DepositOrphaned(d: DepositId)
    | DepositCredited(d: DepositId)
}
