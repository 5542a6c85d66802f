/**
  The repositories over the shared tables: each method runs inside the transaction its caller has
  open, in statement order, and returns before its first write on an error.
 */
module Repositories {
  import opened Domain
  import opened Totals
  import opened Ledger
  import opened Query
  import opened Text
  import Protocol

  const MAX_PENDING_PER_REORG_CHECK: nat := 500
  const MAX_CREDITS_PER_POLL: nat := 500

  /** The heights of the deposits of a chain that a reorg could still undo. */
  function PendingAgesOf(t: Tables, chain: Chain): map<nat, nat> {
    map d: nat | 0 <= d < |t.deposits| && t.deposits[d].transfer.chain == chain && t.deposits[d].Pending() ::
        t.deposits[d].transfer.block
  }

  /** The heights of the deposits of a chain that crediting selects from. */
  function EligibleAgesOf(t: Tables, chain: Chain): map<nat, nat> {
    map d: nat | 0 <= d < |t.deposits| && Eligible(t, d) && t.deposits[d].transfer.chain == chain ::
        t.deposits[d].transfer.block
  }

  /** The rows an UPDATE changed. */
  function Changed(before: seq<Deposit>, after: seq<Deposit>): set<int> {
    set d | 0 <= d < |before| && d < |after| && after[d] != before[d]
  }

  /** The rows below d that a promotion moves. */
  function Movers(ds: seq<Deposit>, chain: Chain, tag: nat, from: DepositState, d: nat): set<int>
    requires d <= |ds|
  {
    set j | 0 <= j < d && ds[j].state == from && ds[j].transfer.chain == chain && ds[j].transfer.block <= tag
  }

  lemma MoversNext(ds: seq<Deposit>, chain: Chain, tag: nat, from: DepositState, d: nat)
    requires d < |ds|
    ensures |Movers(ds, chain, tag, from, d + 1)| == |Movers(ds, chain, tag, from, d)|
         + if ds[d].state == from && ds[d].transfer.chain == chain && ds[d].transfer.block <= tag then 1 else 0
  {
    var before, after := Movers(ds, chain, tag, from, d), Movers(ds, chain, tag, from, d + 1);
    assert after == if d in after then before + {d} else before;
  }

  class Database {
    var accounts: map<AccountKey, AccountId>
    var addresses: map<string, CustomerId>
    var policy: set<(Chain, Asset)>
    var journal: seq<Entry>
    var postings: seq<Posting>
    var withdrawals: seq<Withdrawal>
    var nextNonce: map<Chain, nat>
    var attempts: map<WithdrawalId, Attempt>
    var deposits: seq<Deposit>
    var cursors: map<(Chain, Tier), nat>
    var outbox: seq<Event>

    function Rows(): Tables
      reads this
    {
      Tables(accounts, addresses, policy, journal, postings, withdrawals, nextNonce, attempts, deposits, cursors,
          outbox)
    }

    constructor (t: Tables)
      ensures Rows() == t
    {
      accounts, addresses, policy := t.accounts, t.addresses, t.policy;
      journal, postings, withdrawals := t.journal, t.postings, t.withdrawals;
      nextNonce, attempts := t.nextNonce, t.attempts;
      deposits, cursors, outbox := t.deposits, t.cursors, t.outbox;
    }

    /** Put the tables in a given state: a rollback to what Begin saw, or what another process committed. */
    method Load(t: Tables)
      modifies this
      ensures Rows() == t
    {
      accounts, addresses, policy := t.accounts, t.addresses, t.policy;
      journal, postings, withdrawals := t.journal, t.postings, t.withdrawals;
      nextNonce, attempts := t.nextNonce, t.attempts;
      deposits, cursors, outbox := t.deposits, t.cursors, t.outbox;
    }

    // ---- shared statements ----

    /** SELECT .. FROM accounts WHERE .. ORDER BY id FOR UPDATE, collected into a map. */
    method LockAccounts(wanted: seq<AccountKey>) returns (found: map<AccountKey, AccountId>)
      ensures found == map k | k in wanted && k in accounts :: accounts[k]
    {
      found := map[];
      for i := 0 to |wanted|
        invariant found == map k | k in wanted[..i] && k in accounts :: accounts[k]
      {
        if wanted[i] in accounts { found := found[wanted[i] := accounts[wanted[i]]]; }
      }
    }

    method SumPostings(account: AccountId) returns (balance: int)
      ensures balance == Balance(Rows(), account)
    {
      balance := 0;
      for i := 0 to |postings|
        invariant balance == Total(postings[..i], On(account))
      {
        assert postings[..i + 1] == postings[..i] + [postings[i]];
        TotalAppend(postings[..i], postings[i], On(account));
        if postings[i].account == account { balance := balance + postings[i].amount; }
      }
      assert postings[..|postings|] == postings;
    }

    /** INSERT INTO journal_entries under UNIQUE(cause_type, cause_id). */
    method InsertEntry(cause: Cause, now: Time) returns (inserted: bool)
      modifies this`journal
      ensures inserted == (cause !in Causes(old(journal)))
      ensures journal == if inserted then old(journal) + [Entry(cause, now)] else old(journal)
    {
      for i := 0 to |journal|
        invariant forall j :: 0 <= j < i ==> journal[j].cause != cause
      {
        if journal[i].cause == cause {
          assert cause in Causes(journal);
          return false;
        }
      }
      journal := journal + [Entry(cause, now)];
      inserted := true;
    }

    /** One journal entry and its two postings, or nothing when the cause is already journaled. */
    method PostEntry(cause: Cause, now: Time, from: AccountId, to: AccountId, amount: int) returns (inserted: bool)
      modifies this`journal, this`postings
      ensures inserted == (cause !in Causes(old(journal)))
      ensures Rows() == if inserted then Post(old(Rows()), cause, now, from, to, amount) else old(Rows())
    {
      inserted := InsertEntry(cause, now);
      if inserted {
        var entry := |journal| - 1;
        postings := postings + [Posting(entry, from, -amount)];
        postings := postings + [Posting(entry, to, amount)];
      }
    }

    // ---- transfers ----

    method CreateTransfer(source: CustomerId, target: CustomerId, chain: Chain, asset: Asset, amount: int, key: string,
            now: Time)
      returns (err: Option<Error>)
      modifies this
      ensures err == Check(old(Rows()), Op.InternalTransfer(source, target, chain, asset, amount, key, now))
      ensures Rows() == Apply(old(Rows()), Op.InternalTransfer(source, target, chain, asset, amount, key, now))
    {
      if source == target { return Some(SelfTransfer); }
      if amount <= 0 { return Some(NonPositiveAmount); }
      var from, to := AvailableOf(source, chain, asset), AvailableOf(target, chain, asset);
      var locked := LockAccounts([from, to]);
      if from !in locked { return Some(CustomerNotFound); }
      if to !in locked { return Some(CustomerNotFound); }
      var balance := SumPostings(locked[from]);
      if balance < amount { return Some(InsufficientBalance); }
      var inserted := PostEntry(Cause.InternalTransfer(key), now, locked[from], locked[to], amount);
      if !inserted { return Some(DuplicateCause); }
      err := None;
    }

    // ---- withdrawals ----

    method CreateWithdrawal(c: CustomerId, chain: Chain, asset: Asset, amount: int, destination: string, fee: nat,
        threshold: nat, key: string, now: Time)
      returns (err: Option<Error>)
      modifies this
      ensures err == Check(old(Rows()),
              RequestWithdrawal(c, chain, asset, amount, destination, fee, threshold, key, now))
      ensures Rows()
              == Apply(old(Rows()), RequestWithdrawal(c, chain, asset, amount, destination, fee, threshold, key, now))
    {
      hide Balance, Causes;
      if amount <= 0 { return Some(NonPositiveAmount); }
      if amount >= UINT256_LIMIT { return Some(AmountTooLarge); }
      var status := AwaitingApproval;
      if amount <= threshold { status := Approved; }
      var available, hold := AvailableOf(c, chain, asset), HoldOf(c, chain, asset);
      var locked := LockAccounts([available, hold]);
      if available !in locked { return Some(CustomerNotFound); }
      if hold !in locked { return Some(CustomerNotFound); }
      var balance := SumPostings(locked[available]);
      if balance < amount { return Some(InsufficientBalance); }
      var afterHold := balance - amount;
      if afterHold < fee { return Some(InsufficientBalanceForFee); }
      var inserted := PostEntry(WithdrawalHold(key), now, locked[available], locked[hold], amount);
      if !inserted { return Some(DuplicateCause); }
      var w := |withdrawals|;
      withdrawals := withdrawals
        + [Withdrawal(c, chain, asset, amount, destination, status, now, None, None, None, false)];
      if status == AwaitingApproval {
        outbox := outbox + [ApprovalRequired(w)];
      } else {
        outbox := outbox + [WithdrawalApproved(w)];
      }
      err := None;
    }

    method ApproveWithdrawal(w: WithdrawalId, actor: string) returns (err: Option<Error>)
      modifies this
      ensures err == Check(old(Rows()), Approve(w, actor)) && Rows() == Apply(old(Rows()), Approve(w, actor))
    {
      if w >= |withdrawals| { return Some(WithdrawalNotFound); }
      if withdrawals[w].status != AwaitingApproval { return Some(NotAwaitingApproval); }
      withdrawals := withdrawals[w := withdrawals[w].(status := Approved, approvedBy := Some(actor))];
      outbox := outbox + [WithdrawalApproved(w)];
      err := None;
    }

    /** The creation times of the approved rows of a chain. */
    function ApprovedAges(chain: Chain): map<nat, nat>
      reads this
    {
      map w: nat | 0 <= w < |withdrawals| && withdrawals[w].chain == chain && withdrawals[w].status == Approved ::
          withdrawals[w].createdAt
    }

    /** SELECT .. ORDER BY created_at, id LIMIT 1 FOR UPDATE SKIP LOCKED. */
    method OldestApproved(chain: Chain) returns (found: Option<WithdrawalId>)
      ensures found.None? ==> ApprovedAges(chain) == map[]
      ensures found.Some? ==>
                && OldestFirst(ApprovedAges(chain), [found.value], 1) && found.value < |withdrawals|
                && withdrawals[found.value].chain == chain && withdrawals[found.value].status == Approved
    {
      var ids := SelectOldest(ApprovedAges(chain), 1);
      if ids == [] {
        NothingLeftOut(ApprovedAges(chain), ids, 1);
        return None;
      }
      assert ids == [ids[0]];
      found := Some(ids[0]);
    }

    /** Claims the oldest approved withdrawal and allocates the next nonce to it; Ok(None) when there is none. */
    method ClaimApprovedWithdrawal(chain: Chain) returns (r: Result<Option<WithdrawalId>>)
      modifies this
      ensures r.Ok? && r.value.None? ==> Rows() == old(Rows()) && old(ApprovedAges(chain)) == map[]
      ensures r.Ok? && r.value.Some? ==>
                && OldestFirst(old(ApprovedAges(chain)), [r.value.value], 1)
                && Check(old(Rows()), Claim(chain, r.value.value)) == None
                && Rows() == Effect(old(Rows()), Claim(chain, r.value.value))
      ensures r.Err? ==>
              Rows() == old(Rows()) && ((r.error == NoNonceState && chain !in nextNonce) || r.error == DuplicateAttempt)
    {
      hide OldestFirst;
      var found := OldestApproved(chain);
      if found == None { return Ok(None); }
      var w := found.value;
      if chain !in nextNonce { return Err(NoNonceState); }
      if w in attempts { return Err(DuplicateAttempt); }
      var nonce := nextNonce[chain];
      nextNonce := nextNonce[chain := nonce + 1];
      attempts := attempts[w := Attempt(nonce, None, None)];
      withdrawals := withdrawals[w := withdrawals[w].(status := Signed, nonce := Some(nonce))];
      r := Ok(Some(w));
    }

    method RecordSignedTx(w: WithdrawalId, txHash: string, signedTx: string) returns (err: Option<Error>)
      modifies this
      ensures err == Check(old(Rows()), RecordSigned(w, txHash, signedTx))
      ensures Rows() == Apply(old(Rows()), RecordSigned(w, txHash, signedTx))
    {
      if w >= |withdrawals| { return Some(WithdrawalNotFound); }
      if withdrawals[w].status != Signed { return Some(NotSigned); }
      if w !in attempts { return Some(NoAttempt); }
      attempts := attempts[w := attempts[w].(txHash := Some(txHash), signedTx := Some(signedTx))];
      err := None;
    }

    method MarkBroadcast(w: WithdrawalId) returns (err: Option<Error>)
      modifies this
      ensures err == Check(old(Rows()), Op.MarkBroadcast(w)) && Rows() == Apply(old(Rows()), Op.MarkBroadcast(w))
    {
      if w >= |withdrawals| { return Some(WithdrawalNotFound); }
      if withdrawals[w].status != Signed { return Some(NotSigned); }
      if w !in attempts { return Some(NoAttempt); }
      var txHash := attempts[w].txHash;
      if txHash == None || txHash.value == "" { return Some(NoSignedTx); }
      withdrawals := withdrawals[w := withdrawals[w].(status := Broadcast, txHash := txHash)];
      err := None;
    }

    /** The creation times of the rows ListSignedWithdrawals selects from. */
    function SignedAges(chain: Chain): map<nat, nat>
      reads this
    {
      map w: nat | 0 <= w < |withdrawals| && w in attempts && withdrawals[w].chain == chain
          && withdrawals[w].status == Signed :: withdrawals[w].createdAt
    }

    /** The resume set: up to 50 signed rows, oldest first, without those whose stored bytes do not decode. */
    method ListSignedWithdrawals(chain: Chain) returns (rows: seq<(WithdrawalId, Bytes)>)
      ensures ResumeListing(SignedAges(chain), Rows(), rows)
    {
      var ids := SelectOldest(SignedAges(chain), 50);
      rows := [];
      for i := 0 to |ids|
        invariant forall j :: 0 <= j < |ids| ==> ids[j] in attempts
        invariant rows == Decoded(Rows(), ids[..i])
      {
        assert ids[..i + 1][..i] == ids[..i];
        var signedTx := attempts[ids[i]].signedTx;
        var raw: Bytes := [];
        if signedTx.Some? && signedTx.value != "" {
          var decoded := HexDecode(TrimHexPrefix(signedTx.value));
          if decoded == None { continue; }
          raw := decoded.value;
        }
        rows := rows + [(ids[i], raw)];
      }
      assert ids[..|ids|] == ids;
      assert Resumes(SignedAges(chain), Rows(), ids, rows);
    }

    /** Every broadcast row of the chain with a recorded hash. */
    method ListBroadcastWithdrawals(chain: Chain) returns (rows: seq<(WithdrawalId, string)>)
      ensures forall i :: 0 <= i < |rows| ==>
                && rows[i].0 < |withdrawals| && withdrawals[rows[i].0].chain == chain
                    && withdrawals[rows[i].0].status == Broadcast
                && withdrawals[rows[i].0].txHash == Some(rows[i].1)
      ensures forall i, j :: 0 <= i < j < |rows| ==> rows[i].0 != rows[j].0
      ensures forall w ::
              0 <= w < |withdrawals| && withdrawals[w].chain == chain && withdrawals[w].status == Broadcast
              && withdrawals[w].txHash.Some? ==>
                (w, withdrawals[w].txHash.value) in rows
    {
      var ages := map w: nat | 0 <= w < |withdrawals| && withdrawals[w].chain == chain
          && withdrawals[w].status == Broadcast && withdrawals[w].txHash.Some? :: withdrawals[w].createdAt;
      var ids := SelectOldest(ages, |ages|);
      NothingLeftOut(ages, ids, |ages|);
      rows := [];
      for i := 0 to |ids|
        invariant |rows| == i && forall j :: 0 <= j < i ==> rows[j] == (ids[j], withdrawals[ids[j]].txHash.value)
      {
        rows := rows + [(ids[i], withdrawals[ids[i]].txHash.value)];
      }
      forall w | 0 <= w < |withdrawals| && w in ages ensures (w, withdrawals[w].txHash.value) in rows {
        var j :| 0 <= j < |ids| && ids[j] == w;
        assert rows[j] == (w, withdrawals[w].txHash.value);
      }
    }

    /** SettleConfirmedWithdrawal (success) and SettleFailedWithdrawal. */
    method SettleWithdrawal(w: WithdrawalId, success: bool, now: Time) returns (err: Option<Error>)
      modifies this
      ensures err == Check(old(Rows()), Settle(w, success, now))
      ensures Rows() == Apply(old(Rows()), Settle(w, success, now))
    {
      hide Balance, Causes;
      if w >= |withdrawals| { return Some(WithdrawalNotFound); }
      var row := withdrawals[w];
      if row.status != Broadcast { return Some(NotBroadcast); }
      var hold, counterpart := HoldOf(row.customer, row.chain, row.asset), Counterpart(row, success);
      var locked := LockAccounts([hold, counterpart]);
      if hold !in locked { return Some(NoHoldAccount); }
      if counterpart !in locked { return Some(if success then NoTreasuryAccount else NoAvailableAccount); }
      var inserted := PostEntry(SettleCause(w, success), now, locked[hold], locked[counterpart], row.amount);
      if !inserted { return Some(DuplicateCause); }
      withdrawals := withdrawals[w := row.(status := if success then Confirmed else Failed)];
      outbox := outbox + [if success then WithdrawalConfirmed(w) else WithdrawalFailed(w)];
      err := None;
    }

    /** stale is the clock's verdict: the rows too long in their status. */
    method ListStuckCandidates(chain: Chain, stale: set<WithdrawalId>) returns (ids: seq<WithdrawalId>)
      ensures forall i :: 0 <= i < |ids| ==>
                && ids[i] in stale && ids[i] < |withdrawals| && withdrawals[ids[i]].chain == chain
                    && !withdrawals[ids[i]].stuckAlerted
                && withdrawals[ids[i]].status in {Signed, Broadcast}
      ensures forall i, j :: 0 <= i < j < |ids| ==> ids[i] != ids[j]
      ensures forall w | w in stale && w in attempts && w < |withdrawals| && withdrawals[w].chain == chain
              && !withdrawals[w].stuckAlerted
                         && withdrawals[w].status in {Signed, Broadcast} :: w in ids
    {
      var ages := map w | w in stale && w in attempts && w < |withdrawals| && withdrawals[w].chain == chain
          && !withdrawals[w].stuckAlerted
                          && withdrawals[w].status in {Signed, Broadcast} :: withdrawals[w].createdAt;
      ids := SelectOldest(ages, |ages|);
      NothingLeftOut(ages, ids, |ages|);
    }

    method MarkStuckAlerted(w: WithdrawalId) returns (err: Option<Error>)
      modifies this
      ensures err == Check(old(Rows()), AlertStuck(w)) && Rows() == Apply(old(Rows()), AlertStuck(w))
    {
      if w >= |withdrawals| { return Some(WithdrawalNotFound); }
      if withdrawals[w].stuckAlerted { return Some(AlreadyAlerted); }
      withdrawals := withdrawals[w := withdrawals[w].(stuckAlerted := true)];
      outbox := outbox + [WithdrawalStuck(w)];
      err := None;
    }

    // ---- deposits ----

    /** INSERT .. ON CONFLICT (active key) DO NOTHING, with its event only when a row was inserted. */
    method RecordObserved(x: Transfer) returns (inserted: bool)
      requires x.amount > 0
      modifies this
      ensures inserted == (Check(old(Rows()), Observe(x)) == None) && Rows() == Apply(old(Rows()), Observe(x))
    {
      for d := 0 to |deposits|
        invariant forall j :: 0 <= j < d ==> !(KeyOf(deposits[j].transfer) == KeyOf(x) && deposits[j].state != Orphaned)
      {
        if KeyOf(deposits[d].transfer) == KeyOf(x) && deposits[d].state != Orphaned {
          assert ActiveKey(Rows(), KeyOf(x));
          return false;
        }
      }
      deposits := deposits + [Deposit(x, Observed)];
      outbox := outbox + [DepositPending(|deposits| - 1)];
      inserted := true;
    }

    /** One bulk UPDATE; returns how many rows it moved. */
    method Promote(chain: Chain, tag: nat, from: DepositState, to: DepositState) returns (moved: nat)
      requires from != to
      modifies this`deposits
      ensures deposits == PromoteAll(old(deposits), chain, tag, from, to)
      ensures moved == |Changed(old(deposits), deposits)|
    {
      moved := 0;
      ghost var before := deposits;
      for d := 0 to |deposits|
        invariant |deposits| == |old(deposits)|
        invariant forall j :: 0 <= j < d ==> deposits[j] == Promoted(before[j], chain, tag, from, to)
        invariant forall j :: d <= j < |deposits| ==> deposits[j] == before[j]
        invariant moved == |Movers(before, chain, tag, from, d)|
      {
        MoversNext(before, chain, tag, from, d);
        if deposits[d].state == from && deposits[d].transfer.chain == chain && deposits[d].transfer.block <= tag {
          deposits := deposits[d := deposits[d].(state := to)];
          moved := moved + 1;
        }
      }
      assert deposits == PromoteAll(before, chain, tag, from, to);
      assert Movers(before, chain, tag, from, |before|) == Changed(before, deposits);
    }

    method PromoteToSafe(chain: Chain, tag: nat) returns (moved: nat)
      modifies this`deposits
      ensures Rows() == Apply(old(Rows()), PromoteSafe(chain, tag)) && moved == |Changed(old(deposits), deposits)|
    {
      moved := Promote(chain, tag, Observed, Safe);
    }

    method PromoteToFinalized(chain: Chain, tag: nat) returns (moved: nat)
      modifies this`deposits
      ensures Rows() == Apply(old(Rows()), Op.PromoteFinalized(chain, tag))
      ensures moved == |Changed(old(deposits), deposits)|
    {
      moved := Promote(chain, tag, Safe, Finalized);
    }

    /** The statement itself orphans any existing row; only the reorg check calls it, on pending rows. */
    method OrphanDeposit(d: DepositId) returns (err: Option<Error>)
      modifies this
      ensures d >= |old(deposits)| ==> err == Some(DepositNotFound) && Rows() == old(Rows())
      ensures d < |old(deposits)| ==>
              err == None && Rows() == Emit(SetState(old(Rows()), d, Orphaned), Event.DepositOrphaned(d))
    {
      if d >= |deposits| { return Some(DepositNotFound); }
      deposits := deposits[d := deposits[d].(state := Orphaned)];
      outbox := outbox + [Event.DepositOrphaned(d)];
      err := None;
    }

    method ListPendingDeposits(chain: Chain) returns (ids: seq<DepositId>)
      ensures OldestFirst(PendingAgesOf(Rows(), chain), ids, MAX_PENDING_PER_REORG_CHECK)
    {
      ids := SelectOldest(PendingAgesOf(Rows(), chain), MAX_PENDING_PER_REORG_CHECK);
    }

    /** One row of the crediting loop. */
    method CreditOne(d: DepositId, now: Time) returns (err: Option<Error>)
      requires Eligible(Rows(), d)
      modifies this
      ensures err == Check(old(Rows()), Credit(d, now)) && Rows() == Apply(old(Rows()), Credit(d, now))
    {
      var x := deposits[d].transfer;
      var float, customer := FloatOf(x.chain, x.asset), AvailableOf(addresses[x.address], x.chain, x.asset);
      if x.amount == 0 { return Some(NonPositiveAmount); }
      var inserted := PostEntry(DepositCredit(d), now, accounts[float], accounts[customer], x.amount);
      if !inserted { return Some(DuplicateCause); }
      deposits := deposits[d := deposits[d].(state := Credited)];
      outbox := outbox + [Event.DepositCredited(d)];
      err := None;
    }

    /** Up to 500 eligible deposits, oldest block first; an error leaves a partial batch for the caller to roll back. */
    method CreditFinalizedDeposits(chain: Chain, now: Time) returns (err: Option<Error>, ids: seq<DepositId>)
      modifies this
      ensures OldestFirst(EligibleAgesOf(old(Rows()), chain), ids, MAX_CREDITS_PER_POLL)
      ensures err == None ==>
              Rows() == Run(old(Rows()), Credits(ids, now)) && AllSucceed(old(Rows()), Credits(ids, now))
    {
      ids := SelectOldest(EligibleAgesOf(Rows(), chain), MAX_CREDITS_PER_POLL);
      ghost var t := Rows();
      assert forall j :: 0 <= j < |ids| ==> Eligible(t, ids[j]);
      assert forall j, k :: 0 <= j < k < |ids| ==> ids[j] != ids[k];
      assert Run(t, Credits(ids[..0], now)) == t && AllSucceed(t, Credits(ids[..0], now));
      err := None;
      hide Check, Effect, Eligible, OldestFirst, EligibleAgesOf, AllSucceed, Run;
      for i := 0 to |ids|
        invariant Rows() == Run(t, Credits(ids[..i], now)) && AllSucceed(t, Credits(ids[..i], now))
        invariant forall j :: i <= j < |ids| ==> Eligible(Rows(), ids[j])
      {
        ghost var before := Rows();
        err := CreditOne(ids[i], now);
        if err.Some? { return; }
        CreditsAppend(t, ids[..i], ids[i], now);
        assert ids[..i + 1] == ids[..i] + [ids[i]];
        forall j | i < j < |ids| ensures Eligible(Rows(), ids[j]) { EligibleStays(before, ids[i], ids[j], now); }
      }
      assert ids[..|ids|] == ids;
    }

    method Cursor(chain: Chain, tier: Tier) returns (block: nat)
      ensures block == if (chain, tier) in cursors then cursors[(chain, tier)] else 0
    {
      if (chain, tier) !in cursors { return 0; }
      block := cursors[(chain, tier)];
    }

    method SetCursor(chain: Chain, tier: Tier, block: nat)
      modifies this`cursors
      ensures Rows() == Apply(old(Rows()), Op.SetCursor(chain, tier, block))
    {
      cursors := cursors[(chain, tier) := block];
    }
  }

  /** The listed rows whose stored bytes decode, with those bytes, in order. */
  function Decoded(t: Tables, listed: seq<WithdrawalId>): seq<(WithdrawalId, Bytes)>
    requires forall i :: 0 <= i < |listed| ==> listed[i] in t.attempts
  {
    if listed == [] then []
    else
      var w := listed[|listed| - 1];
      Decoded(t, listed[..|listed| - 1]) + if Protocol.StoredBytes(t, w).Some?
          then [(w, Protocol.StoredBytes(t, w).value)] else []
  }

  /** rows is the resume listing over some choice of the 50 oldest. */
  ghost predicate ResumeListing(ages: map<nat, nat>, t: Tables, rows: seq<(WithdrawalId, Bytes)>) {
    exists listed: seq<WithdrawalId> :: Resumes(ages, t, listed, rows)
  }

  ghost predicate Resumes(ages: map<nat, nat>, t: Tables, listed: seq<WithdrawalId>, rows: seq<(WithdrawalId, Bytes)>) {
    OldestFirst(ages, listed, 50) && (forall i :: 0 <= i < |listed| ==> listed[i] in t.attempts)
        && rows == Decoded(t, listed)
  }

  lemma {:induction false} DecodedExact(t: Tables, listed: seq<WithdrawalId>, w: WithdrawalId, raw: Bytes)
    requires forall i :: 0 <= i < |listed| ==> listed[i] in t.attempts
    ensures (w, raw) in Decoded(t, listed) <==>
            w in listed && w in t.attempts && Protocol.StoredBytes(t, w) == Some(raw)
  {
    if listed != [] { DecodedExact(t, listed[..|listed| - 1], w, raw); }
  }

  function Credits(ids: seq<DepositId>, now: Time): (ops: seq<Op>)
    ensures |ops| == |ids|
  {
    seq(|ids|, i requires 0 <= i < |ids| => Credit(ids[i], now))
  }

  /** No transaction of the history is refused. */
  predicate AllSucceed(t: Tables, ops: seq<Op>) {
    ops == [] || (AllSucceed(t, ops[..|ops| - 1]) && Check(Run(t, ops[..|ops| - 1]), ops[|ops| - 1]) == None)
  }

  lemma CreditsAppend(t: Tables, ids: seq<DepositId>, d: DepositId, now: Time)
    requires AllSucceed(t, Credits(ids, now)) && Check(Run(t, Credits(ids, now)), Credit(d, now)) == None
    ensures Run(t, Credits(ids + [d], now)) == Effect(Run(t, Credits(ids, now)), Credit(d, now))
    ensures AllSucceed(t, Credits(ids + [d], now))
  {
    hide Check, Effect;
    var ops, op := Credits(ids, now), Credit(d, now);
    assert Credits(ids + [d], now) == ops + [op];
    assert (ops + [op])[..|ops|] == ops;
  }

  /** Crediting one deposit leaves the others eligible. */
  lemma EligibleStays(t: Tables, d: DepositId, other: DepositId, now: Time)
    requires Check(t, Credit(d, now)) == None && Eligible(t, other) && other != d
    ensures Eligible(Effect(t, Credit(d, now)), other)
  {
  }
}
