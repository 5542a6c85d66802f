/**
  The database as a value, and every transaction the wallet commits to it. A transaction is an
  Op: Check says which error (if any) the code returns, in the code's own order, and Effect says
  what it commits. The classes of module Database are proved against these two functions, and the
  invariants of the other modules are proved about them.
 */
module Ledger {
  import opened Domain
  import opened Totals

  datatype Tables = Tables(
    accounts: map<AccountKey, AccountId>,
    addresses: map<string, CustomerId>,
    policy: set<(Chain, Asset)>,
    journal: seq<Entry>,
    postings: seq<Posting>,
    withdrawals: seq<Withdrawal>,
    nextNonce: map<Chain, nat>,
    attempts: map<WithdrawalId, Attempt>,
    deposits: seq<Deposit>,
    cursors: map<(Chain, Tier), nat>,
    outbox: seq<Event>)

  /** The amounts an EVM transaction can carry: big.Int.BitLen() <= 256. */
  const UINT256_LIMIT: nat := 0x1_0000_0000_0000_0000_0000_0000_0000_0000_0000_0000_0000_0000_0000_0000_0000_0000

  datatype Op =
    | CreateCustomer(customer: CustomerId, address: string, ids: map<AccountKey, AccountId>)
    | InternalTransfer(source: CustomerId, target: CustomerId, chain: Chain, asset: Asset, amount: int, key: string,
        now: Time)
    | RequestWithdrawal(customer: CustomerId, chain: Chain, asset: Asset, amount: int, destination: string, fee: nat,
                        threshold: nat, key: string, now: Time)
    | Approve(w: WithdrawalId, actor: string)
    | Claim(chain: Chain, w: WithdrawalId)
    | RecordSigned(w: WithdrawalId, txHash: string, signedTx: string)
    | MarkBroadcast(w: WithdrawalId)
    | Settle(w: WithdrawalId, success: bool, now: Time)
    | AlertStuck(w: WithdrawalId)
    | Observe(transfer: Transfer)
    | PromoteSafe(chain: Chain, tag: nat)
    | PromoteFinalized(chain: Chain, tag: nat)
    | Orphan(d: DepositId)
    | Credit(d: DepositId, now: Time)
    | SetCursor(chain: Chain, tier: Tier, block: nat)

  // ---- reading the tables ----

  function On(account: AccountId): Posting -> int {
    (p: Posting) => if p.account == account then p.amount else 0
  }

  /** SELECT COALESCE(SUM(amount), 0) FROM postings WHERE account_id = .. */
  function Balance(t: Tables, account: AccountId): int { Total(t.postings, On(account)) }

  function Causes(journal: seq<Entry>): set<Cause> { set i | 0 <= i < |journal| :: journal[i].cause }

  lemma CausesAppend(journal: seq<Entry>, e: Entry)
    ensures Causes(journal + [e]) == Causes(journal) + {e.cause}
  {
    var more := journal + [e];
    assert more[|journal|] == e;
    forall c | c in Causes(journal) ensures c in Causes(more) {
      var i :| 0 <= i < |journal| && journal[i].cause == c;
      assert more[i].cause == c;
    }
  }

  /** Some row not orphaned already holds this on-chain key (the partial unique index on deposits). */
  predicate ActiveKey(t: Tables, key: DepositKey) {
    exists d :: 0 <= d < |t.deposits| && KeyOf(t.deposits[d].transfer) == key && t.deposits[d].state != Orphaned
  }

  /** The deposit's crediting policy, address and accounts exist. */
  predicate Joined(t: Tables, d: DepositId) {
    && d < |t.deposits|
    && var x := t.deposits[d].transfer;
    && (x.chain, x.asset) in t.policy
    && x.address in t.addresses
    && AvailableOf(t.addresses[x.address], x.chain, x.asset) in t.accounts
    && FloatOf(x.chain, x.asset) in t.accounts
  }

  /** The joined rows CreditFinalizedDeposits selects, apart from the chain and the limit. */
  predicate Eligible(t: Tables, d: DepositId) { Joined(t, d) && t.deposits[d].state == Finalized }

  /** The account credited when w settles: the treasury, or the customer's own available account. */
  function Counterpart(row: Withdrawal, success: bool): AccountKey {
    if success then TreasuryOf(row.chain, row.asset) else AvailableOf(row.customer, row.chain, row.asset)
  }

  function SettleCause(w: WithdrawalId, success: bool): Cause {
    if success then WithdrawalSettlement(w) else WithdrawalFailure(w)
  }

  /** The accounts provisioned for a new customer: available and hold for every supported pair. */
  function CustomerKeys(c: CustomerId): set<AccountKey> {
    set chain <- {Base, Arbitrum}, asset <- {Eth, Usdc}, kind <- {Available, Hold} ::
        AccountKey(Some(c), chain, asset, kind)
  }

  // ---- which error a transaction returns ----

  function CheckCustomer(t: Tables, c: CustomerId, address: string, ids: map<AccountKey, AccountId>): Option<Error> {
    if || ids.Keys != CustomerKeys(c)
       || address in t.addresses
       || c in t.addresses.Values
       || (exists k :: k in ids && (k in t.accounts || ids[k] in t.accounts.Values))
       || (exists k, k' :: k in ids && k' in ids && k != k' && ids[k] == ids[k'])
    then Some(DuplicateAccount)
    else None
  }

  function CheckTransfer(t: Tables, source: CustomerId, target: CustomerId, chain: Chain, asset: Asset, amount: int,
          key: string): Option<Error> {
    if source == target then Some(SelfTransfer)
    else if amount <= 0 then Some(NonPositiveAmount)
    else if AvailableOf(source, chain, asset) !in t.accounts then Some(CustomerNotFound)
    else if AvailableOf(target, chain, asset) !in t.accounts then Some(CustomerNotFound)
    else if Balance(t, t.accounts[AvailableOf(source, chain, asset)]) < amount then Some(InsufficientBalance)
    else if Cause.InternalTransfer(key) in Causes(t.journal) then Some(DuplicateCause)
    else None
  }

  function CheckRequest(t: Tables, c: CustomerId, chain: Chain, asset: Asset, amount: int, fee: nat,
          key: string): Option<Error> {
    if amount <= 0 then Some(NonPositiveAmount)
    else if amount >= UINT256_LIMIT then Some(AmountTooLarge)
    else if AvailableOf(c, chain, asset) !in t.accounts then Some(CustomerNotFound)
    else if HoldOf(c, chain, asset) !in t.accounts then Some(CustomerNotFound)
    else if Balance(t, t.accounts[AvailableOf(c, chain, asset)]) < amount then Some(InsufficientBalance)
    else if Balance(t, t.accounts[AvailableOf(c, chain, asset)]) - amount < fee then Some(InsufficientBalanceForFee)
    else if WithdrawalHold(key) in Causes(t.journal) then Some(DuplicateCause)
    else None
  }

  function CheckSettle(t: Tables, w: WithdrawalId, success: bool): Option<Error> {
    if w >= |t.withdrawals| then Some(WithdrawalNotFound)
    else
      var row := t.withdrawals[w];
      if row.status != Broadcast then Some(NotBroadcast)
      else if HoldOf(row.customer, row.chain, row.asset) !in t.accounts then Some(NoHoldAccount)
      else if Counterpart(row, success) !in t.accounts
          then Some(if success then NoTreasuryAccount else NoAvailableAccount)
      else if SettleCause(w, success) in Causes(t.journal) then Some(DuplicateCause)
      else None
  }

  function Check(t: Tables, op: Op): (e: Option<Error>) {
    match op
    case CreateCustomer(c, address, ids) => CheckCustomer(t, c, address, ids)
    case InternalTransfer(source, target, chain, asset, amount, key, _) =>
      CheckTransfer(t, source, target, chain, asset, amount, key)
    case RequestWithdrawal(c, chain, asset, amount, _, fee, _, key, _) =>
            CheckRequest(t, c, chain, asset, amount, fee, key)
    case Approve(w, _) =>
      if w >= |t.withdrawals| then Some(WithdrawalNotFound)
      else if t.withdrawals[w].status != AwaitingApproval then Some(NotAwaitingApproval)
      else None
    case Claim(chain, w) =>
      if !(w < |t.withdrawals| && t.withdrawals[w].chain == chain && t.withdrawals[w].status == Approved)
          then Some(NotApproved)
      else if chain !in t.nextNonce then Some(NoNonceState)
      else if w in t.attempts then Some(DuplicateAttempt)
      else None
    case RecordSigned(w, _, _) =>
      if w >= |t.withdrawals| then Some(WithdrawalNotFound)
      else if t.withdrawals[w].status != Signed then Some(NotSigned)
      else if w !in t.attempts then Some(NoAttempt)
      else None
    case MarkBroadcast(w) =>
      if w >= |t.withdrawals| then Some(WithdrawalNotFound)
      else if t.withdrawals[w].status != Signed then Some(NotSigned)
      else if w !in t.attempts then Some(NoAttempt)
      else if t.attempts[w].txHash == None || t.attempts[w].txHash.value == "" then Some(NoSignedTx)
      else None
    case Settle(w, success, _) => CheckSettle(t, w, success)
    case AlertStuck(w) =>
      if w >= |t.withdrawals| then Some(WithdrawalNotFound)
      else if t.withdrawals[w].stuckAlerted then Some(AlreadyAlerted)
      else None
    case Observe(x) =>
      if x.amount == 0 then Some(NonPositiveAmount)
      else if ActiveKey(t, KeyOf(x)) then Some(DepositAlreadyActive)
      else None
    case PromoteSafe(_, _) => None
    case PromoteFinalized(_, _) => None
    case Orphan(d) =>
      if d >= |t.deposits| then Some(DepositNotFound)
      else if !t.deposits[d].Pending() then Some(NotPending)
      else None
    case Credit(d, _) =>
      if !Eligible(t, d) then Some(NotEligible)
      else if t.deposits[d].transfer.amount == 0 then Some(NonPositiveAmount)
      else if DepositCredit(d) in Causes(t.journal) then Some(DuplicateCause)
      else None
    case SetCursor(_, _, _) => None
  }

  // ---- what a transaction commits ----

  /** One balanced journal entry: debit from, credit to. */
  function Post(t: Tables, cause: Cause, now: Time, from: AccountId, to: AccountId, amount: int): Tables {
    var entry := |t.journal|;
    t.(journal := t.journal + [Entry(cause, now)],
       postings := t.postings + [Posting(entry, from, -amount), Posting(entry, to, amount)])
  }

  function Emit(t: Tables, e: Event): Tables { t.(outbox := t.outbox + [e]) }

  function SetWithdrawal(t: Tables, w: WithdrawalId, row: Withdrawal): Tables
    requires w < |t.withdrawals|
  {
    t.(withdrawals := t.withdrawals[w := row])
  }

  function SetState(t: Tables, d: DepositId, state: DepositState): Tables
    requires d < |t.deposits|
  {
    t.(deposits := t.deposits[d := t.deposits[d].(state := state)])
  }

  /** UPDATE deposits SET state = to WHERE state = from AND chain = .. AND block_number <= tag. */
  function Promoted(d: Deposit, chain: Chain, tag: nat, from: DepositState, to: DepositState): Deposit {
    if d.state == from && d.transfer.chain == chain && d.transfer.block <= tag then d.(state := to) else d
  }

  function PromoteAll(ds: seq<Deposit>, chain: Chain, tag: nat, from: DepositState,
          to: DepositState): (ds': seq<Deposit>)
    ensures |ds'| == |ds|
    ensures forall d :: 0 <= d < |ds| ==> ds'[d] == Promoted(ds[d], chain, tag, from, to)
  {
    seq(|ds|, d requires 0 <= d < |ds| => Promoted(ds[d], chain, tag, from, to))
  }

  function TransferEffect(t: Tables, source: CustomerId, target: CustomerId, chain: Chain, asset: Asset, amount: int,
          key: string, now: Time): Tables
    requires CheckTransfer(t, source, target, chain, asset, amount, key) == None
  {
    Post(t, Cause.InternalTransfer(key), now, t.accounts[AvailableOf(source, chain, asset)],
        t.accounts[AvailableOf(target, chain, asset)], amount)
  }

  function RequestEffect(t: Tables, c: CustomerId, chain: Chain, asset: Asset, amount: int, destination: string,
      fee: nat, threshold: nat, key: string, now: Time): Tables
    requires CheckRequest(t, c, chain, asset, amount, fee, key) == None
  {
    var status := if amount <= threshold then Approved else AwaitingApproval;
    var row := Withdrawal(c, chain, asset, amount, destination, status, now, None, None, None, false);
    var w := |t.withdrawals|;
    var held := Post(t, WithdrawalHold(key), now, t.accounts[AvailableOf(c, chain, asset)],
        t.accounts[HoldOf(c, chain, asset)], amount);
    Emit(held.(withdrawals := held.withdrawals + [row]),
         if amount <= threshold then WithdrawalApproved(w) else ApprovalRequired(w))
  }

  function ClaimEffect(t: Tables, chain: Chain, w: WithdrawalId): Tables
    requires Check(t, Claim(chain, w)) == None
  {
    var n := t.nextNonce[chain];
    SetWithdrawal(t, w, t.withdrawals[w].(status := Signed, nonce := Some(n)))
      .(nextNonce := t.nextNonce[chain := n + 1], attempts := t.attempts[w := Attempt(n, None, None)])
  }

  function SettleEffect(t: Tables, w: WithdrawalId, success: bool, now: Time): Tables
    requires CheckSettle(t, w, success) == None
  {
    var row := t.withdrawals[w];
    var posted := Post(t, SettleCause(w, success), now, t.accounts[HoldOf(row.customer, row.chain, row.asset)],
        t.accounts[Counterpart(row, success)], row.amount);
    Emit(SetWithdrawal(posted, w, row.(status := if success then Confirmed else Failed)),
         if success then WithdrawalConfirmed(w) else WithdrawalFailed(w))
  }

  function CreditEffect(t: Tables, d: DepositId, now: Time): Tables
    requires Eligible(t, d)
  {
    var x := t.deposits[d].transfer;
    var posted := Post(t, DepositCredit(d), now, t.accounts[FloatOf(x.chain, x.asset)],
        t.accounts[AvailableOf(t.addresses[x.address], x.chain, x.asset)], x.amount);
    Emit(SetState(posted, d, Credited), Event.DepositCredited(d))
  }

  function Effect(t: Tables, op: Op): (t': Tables)
    requires Check(t, op) == None
  {
    match op
    case CreateCustomer(c, address, ids) => t.(accounts := t.accounts + ids, addresses := t.addresses[address := c])
    case InternalTransfer(source, target, chain, asset, amount, key, now) =>
      TransferEffect(t, source, target, chain, asset, amount, key, now)
    case RequestWithdrawal(c, chain, asset, amount, destination, fee, threshold, key, now) =>
      RequestEffect(t, c, chain, asset, amount, destination, fee, threshold, key, now)
    case Approve(w, actor) =>
      Emit(SetWithdrawal(t, w, t.withdrawals[w].(status := Approved, approvedBy := Some(actor))), WithdrawalApproved(w))
    case Claim(chain, w) => ClaimEffect(t, chain, w)
    case RecordSigned(w, txHash, signedTx) =>
      t.(attempts := t.attempts[w := t.attempts[w].(txHash := Some(txHash), signedTx := Some(signedTx))])
    case MarkBroadcast(w) =>
      SetWithdrawal(t, w, t.withdrawals[w].(status := Broadcast, txHash := t.attempts[w].txHash))
    case Settle(w, success, now) => SettleEffect(t, w, success, now)
    case AlertStuck(w) => Emit(SetWithdrawal(t, w, t.withdrawals[w].(stuckAlerted := true)), WithdrawalStuck(w))
    case Observe(x) =>
      Emit(t.(deposits := t.deposits + [Deposit(x, Observed)]), DepositPending(|t.deposits|))
    case PromoteSafe(chain, tag) => t.(deposits := PromoteAll(t.deposits, chain, tag, Observed, Safe))
    case PromoteFinalized(chain, tag) => t.(deposits := PromoteAll(t.deposits, chain, tag, Safe, Finalized))
    case Orphan(d) => Emit(SetState(t, d, Orphaned), Event.DepositOrphaned(d))
    case Credit(d, now) => CreditEffect(t, d, now)
    case SetCursor(chain, tier, block) => t.(cursors := t.cursors[(chain, tier) := block])
  }

  /** One attempted transaction: committed, or rolled back with every table as it was. */
  function Apply(t: Tables, op: Op): Tables {
    if Check(t, op) == None then Effect(t, op) else t
  }

  /** A history of attempted transactions. */
  function Run(t: Tables, ops: seq<Op>): Tables {
    if ops == [] then t else Apply(Run(t, ops[..|ops| - 1]), ops[|ops| - 1])
  }

  lemma RunEmpty(t: Tables)
    ensures Run(t, []) == t
  {
  }

  lemma RunSnoc(t: Tables, ops: seq<Op>, op: Op)
    ensures Run(t, ops + [op]) == Apply(Run(t, ops), op)
  {
    assert (ops + [op])[..|ops|] == ops;
  }

  lemma {:induction false} RunConcat(t: Tables, first: seq<Op>, second: seq<Op>)
    ensures Run(t, first + second) == Run(Run(t, first), second)
  {
    if second == [] {
      assert first + second == first;
    } else {
      var init := second[..|second| - 1];
      assert (first + second)[..|first + second| - 1] == first + init;
      RunConcat(t, first, init);
    }
  }

  /** A database as the migrations leave it: platform accounts and policy, no customer yet. */
  predicate Fresh(t: Tables) {
    && t.journal == [] && t.postings == [] && t.withdrawals == [] && t.deposits == [] && t.outbox == []
    && t.attempts == map[] && t.addresses == map[] && t.cursors == map[]
    && (forall k :: k in t.accounts ==> k.owner == None && k.kind != Hold)
    && (forall k, k' :: k in t.accounts && k' in t.accounts && t.accounts[k] == t.accounts[k'] ==> k == k')
  }

  /** A database some history leads to. */
  ghost predicate Reachable(t: Tables) { exists origin, ops :: Reaches(origin, ops, t) }

  predicate Reaches(origin: Tables, ops: seq<Op>, t: Tables) { Fresh(origin) && Run(origin, ops) == t }

  lemma ReachedNext(t: Tables, op: Op)
    requires Reachable(t)
    ensures Reachable(Apply(t, op))
  {
    var origin, ops :| Reaches(origin, ops, t);
    RunSnoc(origin, ops, op);
    assert Reaches(origin, ops + [op], Apply(t, op));
  }
}
