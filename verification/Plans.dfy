/**
  The lock plan of every transaction: what it locks, in which order. Callers lock accounts in
  ascending id; crediting takes its locks deposit by deposit, in block order.
 */
module Plans {
  import opened Domain
  import opened Ledger
  import opened LockOrder
  import Records

  /** The transactions of callers: the API and the broadcaster. */
  predicate Locking(op: Op) {
    match op
    case InternalTransfer(_, _, _, _, _, _, _) => true
    case RequestWithdrawal(_, _, _, _, _, _, _, _, _) => true
    case Approve(_, _) => true
    case Claim(_, _) => true
    case RecordSigned(_, _, _) => true
    case MarkBroadcast(_) => true
    case Settle(_, _, _) => true
    case AlertStuck(_) => true
    case _ => false
  }

  // ---- what callers lock ----

  /** The withdrawal row locked FOR UPDATE. */
  function RowOf(op: Op): Option<WithdrawalId> {
    match op
    case Approve(w, _) => Some(w)
    case Claim(_, w) => Some(w)
    case RecordSigned(w, _, _) => Some(w)
    case MarkBroadcast(w) => Some(w)
    case Settle(w, _, _) => Some(w)
    case AlertStuck(w) => Some(w)
    case _ => None
  }

  /** Decided by the first statement's snapshot, before any wait. */
  function Unready(t: Tables, op: Op): Option<Error> {
    match op
    case InternalTransfer(source, target, chain, asset, amount, _, _) =>
      if source == target then Some(SelfTransfer)
      else if amount <= 0 then Some(NonPositiveAmount)
      else if AvailableOf(source, chain, asset) !in t.accounts then Some(CustomerNotFound)
      else if AvailableOf(target, chain, asset) !in t.accounts then Some(CustomerNotFound)
      else None
    case RequestWithdrawal(c, chain, asset, amount, _, _, _, _, _) =>
      if amount <= 0 then Some(NonPositiveAmount)
      else if amount >= UINT256_LIMIT then Some(AmountTooLarge)
      else if AvailableOf(c, chain, asset) !in t.accounts then Some(CustomerNotFound)
      else if HoldOf(c, chain, asset) !in t.accounts then Some(CustomerNotFound)
      else None
    case Claim(chain, w) => if w < |t.withdrawals| && t.withdrawals[w].chain == chain then None else Some(NotApproved)
    case _ => if RowOf(op).Some? && RowOf(op).value >= |t.withdrawals| then Some(WithdrawalNotFound) else None
  }

  /** The accounts locked in one ORDER BY id FOR UPDATE statement. */
  function AccountKeys(t: Tables, op: Op): (AccountKey, AccountKey)
    requires Unready(t, op) == None && (op.InternalTransfer? || op.RequestWithdrawal? || op.Settle?)
  {
    match op
    case InternalTransfer(source, target, chain, asset, _, _, _) =>
            (AvailableOf(source, chain, asset), AvailableOf(target, chain, asset))
    case RequestWithdrawal(c, chain, asset, _, _, _, _, _, _) => (AvailableOf(c, chain, asset), HoldOf(c, chain, asset))
    case Settle(w, success, _) =>
      var row := t.withdrawals[w];
      (HoldOf(row.customer, row.chain, row.asset), Counterpart(row, success))
  }

  function AccountsLocked(t: Tables, op: Op): seq<AccountId>
    requires Unready(t, op) == None
  {
    if op.InternalTransfer? || op.RequestWithdrawal? || op.Settle? then
      var (k, k') := AccountKeys(t, op);
      if k in t.accounts && k' in t.accounts then InOrder(t.accounts[k], t.accounts[k'])
      else if k in t.accounts then [t.accounts[k]]
      else if k' in t.accounts then [t.accounts[k']]
      else []
    else []
  }

  function InOrder(a: AccountId, b: AccountId): seq<AccountId> {
    if a < b then [a, b] else if b < a then [b, a] else [a]
  }

  function RowLocks(op: Op): seq<Lock> {
    if RowOf(op).Some? then [Lock(WithdrawalRow(RowOf(op).value), Exclusive)] else []
  }

  function NonceLocks(op: Op): seq<Lock> { if op.Claim? then [Lock(NonceRow(op.chain), Exclusive)] else [] }

  function AccountLocks(accounts: seq<AccountId>): (locks: seq<Lock>)
    ensures |locks| == |accounts|
  {
    seq(|accounts|, i requires 0 <= i < |accounts| => Lock(AccountRow(accounts[i]), Exclusive))
  }

  function CauseLocks(op: Op): seq<Lock> {
    if Records.Journaled(op).Some? then [Lock(CauseKey(Records.Journaled(op).value), Exclusive)] else []
  }

  function KeyLocks(request: Option<string>): seq<Lock> {
    if request.Some? then [Lock(RequestKey(request.value), Exclusive)] else []
  }

  function Plan(t: Tables, op: Op, request: Option<string>): seq<Lock>
    requires Unready(t, op) == None
  {
    RowLocks(op) + NonceLocks(op) + AccountLocks(AccountsLocked(t, op)) + CauseLocks(op) + KeyLocks(request)
  }

  predicate Graded(plan: seq<Lock>, low: nat, high: nat) {
    forall i :: 0 <= i < |plan| ==> plan[i].mode == Exclusive && low <= Grade(plan[i].on) < high
  }

  lemma OrderedJoin(a: seq<Lock>, b: seq<Lock>, low: nat, mid: nat, high: nat)
    requires Ordered(a) && Graded(a, low, mid) && Ordered(b) && Graded(b, mid, high) && low <= mid <= high
    ensures Ordered(a + b) && Graded(a + b, low, high)
  {
  }

  /** Every caller's plan climbs: withdrawal row, nonce row, accounts by id, journal key, idempotency key. */
  lemma PlanOrdered(t: Tables, op: Op, request: Option<string>)
    requires Unready(t, op) == None
    ensures Ordered(Plan(t, op, request))
    ensures forall i :: 0 <= i < |Plan(t, op, request)| ==> Plan(t, op, request)[i].mode == Exclusive
  {
    hide AccountsLocked, Unready, RowLocks, NonceLocks, CauseLocks, KeyLocks, AccountLocks, Ordered, Graded;
    var row, nonce, cause, key := RowLocks(op), NonceLocks(op), CauseLocks(op), KeyLocks(request);
    var accounts := AccountLocks(AccountsLocked(t, op));
    OneLockEach(op, request);
    AccountLocksOrdered(t, op);
    OrderedJoin(row, nonce, 0, 1, 2);
    OrderedJoin(row + nonce, accounts, 0, 2, 3);
    OrderedJoin(row + nonce + accounts, cause, 0, 3, 4);
    OrderedJoin(row + nonce + accounts + cause, key, 0, 4, 5);
    GradedExclusive(Plan(t, op, request), 0, 5);
  }

  lemma GradedExclusive(plan: seq<Lock>, low: nat, high: nat)
    requires Graded(plan, low, high)
    ensures forall i :: 0 <= i < |plan| ==> plan[i].mode == Exclusive
  {
  }

  lemma AccountLocksOrdered(t: Tables, op: Op)
    requires Unready(t, op) == None
    ensures var locks := AccountLocks(AccountsLocked(t, op)); Ordered(locks) && Graded(locks, 2, 3)
  {
    hide AccountsLocked, Unready;
    AccountsAscend(t, op);
  }

  lemma OneLockEach(op: Op, request: Option<string>)
    ensures Ordered(RowLocks(op)) && Graded(RowLocks(op), 0, 1)
    ensures Ordered(NonceLocks(op)) && Graded(NonceLocks(op), 1, 2)
    ensures Ordered(CauseLocks(op)) && Graded(CauseLocks(op), 3, 4)
    ensures Ordered(KeyLocks(request)) && Graded(KeyLocks(request), 4, 5)
  {
  }

  lemma AccountsAscend(t: Tables, op: Op)
    requires Unready(t, op) == None
    ensures forall i, j :: 0 <= i < j < |AccountsLocked(t, op)| ==> AccountsLocked(t, op)[i] < AccountsLocked(t, op)[j]
  {
  }

  // ---- what crediting locks ----

  function CreditedAccount(t: Tables, d: DepositId): AccountId
    requires Joined(t, d)
  {
    var x := t.deposits[d].transfer;
    t.accounts[AvailableOf(t.addresses[x.address], x.chain, x.asset)]
  }

  function FloatAccount(t: Tables, d: DepositId): AccountId
    requires Joined(t, d)
  {
    t.accounts[FloatOf(t.deposits[d].transfer.chain, t.deposits[d].transfer.asset)]
  }

  predicate AllJoined(t: Tables, ids: seq<DepositId>) { forall i :: 0 <= i < |ids| ==> Joined(t, ids[i]) }

  /** Deposit by deposit: its journal key, then the foreign-key locks its two postings leave on the accounts. */
  function CreditPlan(t: Tables, ids: seq<DepositId>): (plan: seq<Lock>)
    requires AllJoined(t, ids)
    ensures |plan| == 3 * |ids|
  {
    seq(3 * |ids|, i requires 0 <= i < 3 * |ids| =>
      if i % 3 == 0 then Lock(CauseKey(DepositCredit(ids[i / 3])), Exclusive)
      else if i % 3 == 1 then Lock(AccountRow(FloatAccount(t, ids[i / 3])), Shared)
      else Lock(AccountRow(CreditedAccount(t, ids[i / 3])), Shared))
  }
}
