/**
  Why the locks suffice: whatever a transaction has checked stays true until it commits, because
  every transaction that could change it needs a lock that is already taken. A poll's selection
  stays true because each chain has one watcher.
 */
module Serial {
  import opened Domain
  import opened Ledger
  import opened LockOrder
  import opened Query
  import opened Repositories
  import opened Plans
  import opened CreditLocks
  import opened Polls
  import opened Interleaving
  import Books
  import Crediting
  import Records

  // ---- what one transaction leaves alone ----

  /** Another transaction shares no lock with the first level checks of op. */
  predicate Clear(t: Tables, op: Op, level: nat, other: Op)
    requires Unready(t, op) == None && Unready(t, other) == None
  {
    && (level >= 1 && RowOf(op).Some? ==> RowOf(other) != RowOf(op))
    && (level >= 3 ==> forall a :: a in AccountsLocked(t, op) ==> a !in AccountsLocked(t, other))
    && (level >= 4 && Records.Journaled(op).Some? ==> Records.Journaled(other) != Records.Journaled(op))
  }

  lemma RowKept(t: Tables, other: Op, w: WithdrawalId)
    requires Check(t, other) == None && w < |t.withdrawals|
    ensures w < |Effect(t, other).withdrawals|
    ensures var row, row' := t.withdrawals[w], Effect(t, other).withdrawals[w];
            row'.customer == row.customer && row'.chain == row.chain && row'.asset == row.asset
    ensures RowOf(other) != Some(w) ==>
              && Effect(t, other).withdrawals[w] == t.withdrawals[w]
              && (w in Effect(t, other).attempts <==> w in t.attempts)
              && (w in t.attempts ==> Effect(t, other).attempts[w] == t.attempts[w])
    ensures forall chain :: chain in t.nextNonce ==> chain in Effect(t, other).nextNonce
  {
  }

  /** Only a transaction holding an available account's lock can lower its balance. */
  lemma BalanceKept(t: Tables, other: Op, k: AccountKey)
    requires Books.DistinctAccounts(t.accounts) && Check(t, other) == None
    requires k in t.accounts && k.owner.Some? && k.kind == Available
    requires Unready(t, other) == None && t.accounts[k] !in AccountsLocked(t, other)
    ensures Balance(Effect(t, other), t.accounts[k]) >= Balance(t, t.accounts[k])
  {
    Books.BalanceStep(t, other, t.accounts[k]);
    Books.PostingsStep(t, other);
    if Books.Legs(t, other).Some? {
      LegsPositive(t, other);
      var (from, to, amount) := Books.Legs(t, other).value;
      hide Check, Effect;
      assert t.accounts[from] != t.accounts[k];
    }
  }

  /** A debited customer account is always one the transaction has locked. */
  lemma LegsPositive(t: Tables, op: Op)
    requires Check(t, op) == None && Unready(t, op) == None && Books.Legs(t, op).Some?
    ensures var (from, to, amount) := Books.Legs(t, op).value;
            && amount >= 0 && from in t.accounts && to in t.accounts
            && (from.owner == None || t.accounts[from] in AccountsLocked(t, op))
  {
  }

  lemma UnreadyKept(t: Tables, op: Op, other: Op)
    requires Locking(op) && Unready(t, op) == None && Check(t, other) == None
    ensures Unready(Effect(t, other), op) == None
  {
    Books.AccountsStep(t, other);
    if RowOf(op).Some? { RowKept(t, other, RowOf(op).value); }
    hide Check, Effect;
  }

  lemma AccountsKept(t: Tables, op: Op, other: Op)
    requires Books.Referenced(t) && Locking(op) && Unready(t, op) == None && Check(t, other) == None
    ensures Unready(Effect(t, other), op) == None && AccountsLocked(Effect(t, other), op) == AccountsLocked(t, op)
  {
    UnreadyKept(t, op, other);
    Books.AccountsStep(t, other);
    if op.Settle? {
      var row := t.withdrawals[op.w];
      RowKept(t, other, op.w);
      assert HoldOf(row.customer, row.chain, row.asset) in t.accounts;
      if other.CreateCustomer? { NotProvisionedTwice(t, other, row); }
    }
    hide Check, Effect;
  }

  /** A customer with a withdrawal has its accounts already: provisioning adds none of its keys, nor a platform's. */
  lemma NotProvisionedTwice(t: Tables, op: Op, row: Withdrawal)
    requires op.CreateCustomer? && Check(t, op) == None && HoldOf(row.customer, row.chain, row.asset) in t.accounts
    ensures forall success :: Counterpart(row, success) !in op.ids
  {
    hide Effect;
    Provisioned(op.customer, row.chain, row.asset);
    assert op.customer != row.customer;
  }

  lemma Provisioned(c: CustomerId, chain: Chain, asset: Asset)
    ensures HoldOf(c, chain, asset) in CustomerKeys(c)
  {
    var kind := Hold;
    assert (chain.Base? || chain.Arbitrum?) && (asset.Eth? || asset.Usdc?);
    assert chain in {Base, Arbitrum} && asset in {Eth, Usdc} && kind in {Available, Hold};
  }

  lemma GuardKept(t: Tables, op: Op, level: nat, k: nat, other: Op)
    requires Books.Referenced(t) && Locking(op) && Passed(t, op, level) && 1 <= k <= level
    requires Check(t, other) == None && Unready(t, other) == None && Clear(t, op, level, other)
    ensures Unready(Effect(t, other), op) == None && Guard(Effect(t, other), op, k) == None
  {
    hide Check, Effect, RowGuard, AttemptGuard, BalanceGuard;
    UnreadyKept(t, op, other);
    assert Guard(t, op, k) == None;
    match k
    case 1 => RowGuardKept(t, op, other);
    case 2 => RowGuardKept(t, op, other);
    case 3 => BalanceGuardKept(t, op, other);
    case 4 => Records.JournalGrows(t, other);
    case _ =>
  }

  lemma RowGuardKept(t: Tables, op: Op, other: Op)
    requires Locking(op) && Unready(t, op) == None && Check(t, other) == None
    requires RowOf(op).Some? ==> RowOf(other) != RowOf(op)
    ensures Unready(Effect(t, other), op) == None
    ensures RowGuard(t, op) == None ==> RowGuard(Effect(t, other), op) == None
    ensures AttemptGuard(t, op) == None ==> AttemptGuard(Effect(t, other), op) == None
  {
    UnreadyKept(t, op, other);
    if RowOf(op).Some? { RowKept(t, other, RowOf(op).value); }
    hide Check, Effect;
  }

  lemma BalanceGuardKept(t: Tables, op: Op, other: Op)
    requires Books.Referenced(t) && Locking(op) && Unready(t, op) == None && BalanceGuard(t, op) == None
    requires Check(t, other) == None && Unready(t, other) == None
    requires forall a :: a in AccountsLocked(t, op) ==> a !in AccountsLocked(t, other)
    ensures Unready(Effect(t, other), op) == None && BalanceGuard(Effect(t, other), op) == None
  {
    UnreadyKept(t, op, other);
    Books.AccountsStep(t, other);
    if op.Settle? { RowKept(t, other, op.w); }
    if op.InternalTransfer? || op.RequestWithdrawal? {
      var k := AccountKeys(t, op).0;
      assert t.accounts[k] in AccountsLocked(t, op);
      BalanceKept(t, other, k);
    }
    hide Check, Effect;
  }

  // ---- what an open poll relies on ----

  ghost predicate BatchOk(t: Tables, chain: Chain, b: Batch) {
    && AllJoined(t, b.ids) && OnChainAll(t, chain, b.ids) && b.plan == CreditPlan(t, b.ids) && b.got <= |b.plan|
    && (forall i :: 0 <= i < |b.ids| ==> Eligible(PollView(t, chain, b.tags), b.ids[i]))
    && (forall i, j :: 0 <= i < j < |b.ids| ==> b.ids[i] != b.ids[j])
  }

  /** Nobody but the chain's own watcher touches a deposit row of the chain or what it is joined with. */
  lemma DepositStays(t: Tables, chain: Chain, op: Op, d: DepositId)
    requires Joined(t, d) && t.deposits[d].transfer.chain == chain && !OfWatcher(t, chain, op)
    ensures Joined(Apply(t, op), d) && Apply(t, op).deposits[d] == t.deposits[d]
    ensures CreditedAccount(Apply(t, op), d) == CreditedAccount(t, d)
    ensures FloatAccount(Apply(t, op), d) == FloatAccount(t, d)
  {
    if Check(t, op) == None {
      Books.AccountsStep(t, op);
      RowStays(t, chain, op, d);
      AddressesGrow(t, op);
      hide Check, Effect;
    }
  }

  lemma RowStays(t: Tables, chain: Chain, op: Op, d: DepositId)
    requires Check(t, op) == None && d < |t.deposits| && t.deposits[d].transfer.chain == chain
    requires !OfWatcher(t, chain, op)
    ensures d < |Effect(t, op).deposits| && Effect(t, op).deposits[d] == t.deposits[d]
  {
  }

  lemma AddressesGrow(t: Tables, op: Op)
    requires Check(t, op) == None
    ensures Effect(t, op).policy == t.policy
    ensures forall a :: a in t.addresses ==>
            a in Effect(t, op).addresses && Effect(t, op).addresses[a] == t.addresses[a]
  {
  }

  /** A selection stays exactly as eligible as it was when the poll looked. */
  lemma BatchKept(t: Tables, chain: Chain, b: Batch, op: Op)
    requires BatchOk(t, chain, b) && !OfWatcher(t, chain, op)
    ensures BatchOk(Apply(t, op), chain, b)
  {
    var t' := Apply(t, op);
    hide Apply, OfWatcher, Eligible, PollView;
    forall i | 0 <= i < |b.ids|
      ensures Joined(t', b.ids[i]) && t'.deposits[b.ids[i]] == t.deposits[b.ids[i]]
      ensures Eligible(PollView(t', chain, b.tags), b.ids[i])
      ensures CreditedAccount(t', b.ids[i]) == CreditedAccount(t, b.ids[i])
      ensures FloatAccount(t', b.ids[i]) == FloatAccount(t, b.ids[i])
    {
      DepositStays(t, chain, op, b.ids[i]);
      ViewKept(t, t', chain, b.tags, b.ids[i]);
    }
    hide CreditedAccount, FloatAccount;
    assert CreditPlan(t', b.ids) == CreditPlan(t, b.ids);
  }

  lemma ViewKept(t: Tables, t': Tables, chain: Chain, tags: Tags, d: DepositId)
    requires Joined(t, d) && Joined(t', d) && t'.deposits[d] == t.deposits[d] && Eligible(PollView(t, chain, tags), d)
    ensures Eligible(PollView(t', chain, tags), d)
  {
    EligibleAfterTags(t, chain, tags, d);
    EligibleAfterTags(t', chain, tags, d);
    hide Run, Eligible, Joined;
  }

  /** Transactions of no interest to the chain's poll: they credit other chains' deposits, or none. */
  predicate AllForeign(t: Tables, chain: Chain, ops: seq<Op>) {
    forall i :: 0 <= i < |ops| ==>
            !OfWatcher(t, chain, ops[i]) && !ops[i].Orphan? && (ops[i].Credit? ==> ops[i].d < |t.deposits|)
  }

  lemma {:induction false} BatchKeptByAll(t: Tables, chain: Chain, b: Batch, ops: seq<Op>)
    requires BatchOk(t, chain, b) && AllForeign(t, chain, ops)
    ensures BatchOk(Run(t, ops), chain, b)
  {
    hide BatchOk, Apply;
    if ops != [] {
      var init, op := ops[..|ops| - 1], ops[|ops| - 1];
      BatchKeptByAll(t, chain, b, init);
      if op.Credit? { Records.TerminalStates(t, init, op.d); }
      BatchKept(Run(t, init), chain, b, op);
    }
  }

  /** What a poll writes is foreign to the other chain. */
  lemma WrittenForeign(t: Tables, chain: Chain, b: Batch, other: Chain)
    requires AllJoined(t, b.ids) && OnChainAll(t, chain, b.ids) && other != chain
    ensures AllForeign(t, other, Written(chain, b))
  {
    var first := Promoting(chain, b.tags);
    forall i | 0 <= i < |Written(chain, b)|
      ensures var op := Written(chain, b)[i];
              !OfWatcher(t, other, op) && !op.Orphan? && (op.Credit? ==> op.d < |t.deposits|)
    {
      if i >= |first| { assert Written(chain, b)[i] == Credit(b.ids[i - |first|], b.now); }
    }
  }

  lemma WrittenByWatcher(chain: Chain, b: Batch)
    ensures forall i :: 0 <= i < |Written(chain, b)| ==> !Locking(Written(chain, b)[i])
  {
  }

  // ---- the invariant ----

  predicate TxOk(t: Tables, keys: set<string>, tx: Tx) {
    && Locking(tx.op) && Passed(t, tx.op, tx.level) && tx.plan == Plan(t, tx.op, tx.request)
    && tx.got <= |tx.plan| && tx.level <= 5 && Reached(tx, tx.level)
    && (tx.level == 5 && tx.request.Some? ==> tx.request.value !in keys)
  }

  predicate Disjoint(tx: Tx, tx': Tx) {
    forall i, j :: 0 <= i < tx.got <= |tx.plan| && 0 <= j < tx'.got <= |tx'.plan| ==> tx.plan[i].on != tx'.plan[j].on
  }

  predicate Separate(tx: Tx, b: Batch) {
    forall i, j :: 0 <= i < tx.got <= |tx.plan| && 0 <= j < b.got <= |b.plan| ==> tx.plan[i].on != b.plan[j].on
  }

  ghost predicate AllTxOk(t: Tables, keys: set<string>, txs: map<nat, Tx>) {
    forall id :: id in txs ==> TxOk(t, keys, txs[id])
  }

  ghost predicate AllBatchOk(t: Tables, polls: map<Chain, Batch>) {
    forall chain :: chain in polls ==> BatchOk(t, chain, polls[chain])
  }

  /** No two open transactions hold the same lock, but for the shared ones of two polls. */
  ghost predicate NoneShared(s: World) {
    && (forall id, id' :: id in s.txs && id' in s.txs && id != id' ==> Disjoint(s.txs[id], s.txs[id']))
    && (forall id, chain :: id in s.txs && chain in s.polls ==> Separate(s.txs[id], s.polls[chain]))
  }

  ghost predicate Inv(t: Tables, s: World) {
    && Fresh(t) && s.t == Run(t, s.history) && Books.Reconciled(s.t)
    && AllTxOk(s.t, s.keys, s.txs) && AllBatchOk(s.t, s.polls) && NoneShared(s)
  }

  // ---- every step ----

  /** A transaction that has committed something else leaves every open one as good as it was. */
  lemma TxKept(t: Tables, keys: set<string>, keys': set<string>, tx: Tx, other: Op)
    requires Books.Referenced(t) && TxOk(t, keys, tx) && Check(t, other) == None && Unready(t, other) == None
    requires Clear(t, tx.op, tx.level, other)
    requires tx.request.Some? && tx.level == 5 ==> tx.request.value !in keys'
    ensures TxOk(Effect(t, other), keys', tx)
  {
    AccountsKept(t, tx.op, other);
    var t' := Effect(t, other);
    forall k: nat | 1 <= k <= tx.level ensures Guard(t', tx.op, k) == None { GuardKept(t, tx.op, tx.level, k, other); }
    hide Check, Effect, Guard, AccountsLocked;
  }

  /** The watcher's transactions and provisioning touch nothing an open transaction relies on. */
  lemma AloneClear(t: Tables, op: Op, level: nat, other: Op)
    requires Locking(op) && Unready(t, op) == None && !Locking(other)
    ensures Unready(t, other) == None && Clear(t, op, level, other)
  {
  }

  lemma ReconciledRefers(t: Tables)
    requires Books.Reconciled(t)
    ensures Books.Referenced(t)
  {
  }

  lemma TxKeptAlone(t: Tables, keys: set<string>, tx: Tx, op: Op)
    requires Books.Reconciled(t) && TxOk(t, keys, tx) && !Locking(op)
    ensures TxOk(Apply(t, op), keys, tx)
  {
    if Check(t, op) == None {
      ReconciledRefers(t);
      AloneClear(t, tx.op, tx.level, op);
      TxKept(t, keys, keys, tx, op);
    }
    hide Check, Effect, TxOk;
  }

  lemma {:induction false} TxKeptByAll(t: Tables, keys: set<string>, tx: Tx, ops: seq<Op>)
    requires Books.Reconciled(t) && TxOk(t, keys, tx) && forall i :: 0 <= i < |ops| ==> !Locking(ops[i])
    ensures Books.Reconciled(Run(t, ops)) && TxOk(Run(t, ops), keys, tx)
  {
    hide Books.Reconciled, TxOk, Apply, Locking;
    if ops != [] {
      var init, op := ops[..|ops| - 1], ops[|ops| - 1];
      TxKeptByAll(t, keys, tx, init);
      TxKeptAlone(Run(t, init), keys, tx, op);
      Books.ReconciledStep(Run(t, init), op);
    }
  }

  predicate HasLock(tx: Tx, r: Resource) { exists i :: 0 <= i < |tx.plan| && tx.plan[i].on == r }

  /** A complete transaction holds every lock of its plan, so an open one that reached a level shares none of them. */
  lemma HeldClear(t: Tables, keys: set<string>, tx: Tx, done: Tx)
    requires TxOk(t, keys, tx) && TxOk(t, keys, done) && Disjoint(tx, done) && done.got == |done.plan|
    ensures Clear(t, tx.op, tx.level, done.op)
    ensures tx.level == 5 && tx.request.Some? ==> done.request != tx.request
  {
    TxOkMeans(t, keys, tx);
    TxOkMeans(t, keys, done);
    hide AccountsLocked, Plan, TxOk, Reached, Disjoint, Unready, Locking, Clear;
    ClearBy(t, tx, done);
  }

  lemma ClearBy(t: Tables, tx: Tx, done: Tx)
    requires Unready(t, tx.op) == None && tx.plan == Plan(t, tx.op, tx.request)
    requires Unready(t, done.op) == None && done.plan == Plan(t, done.op, done.request) && Outranked(tx, done)
    ensures Clear(t, tx.op, tx.level, done.op)
    ensures tx.level == 5 && tx.request.Some? ==> done.request != tx.request
  {
    hide Plan, HasLock, Outranked, Unready, RowOf, AccountsLocked, Records.Journaled;
    PlanHas(t, tx);
    PlanHas(t, done);
    forall r | HasLock(tx, r) && Grade(r) < tx.level ensures !HasLock(done, r) { LowerUnshared(tx, done, r); }
  }

  /** done has every lock of its plan, and tx every lock below its level. */
  predicate Outranked(tx: Tx, done: Tx) {
    tx.got <= |tx.plan| && Reached(tx, tx.level) && Disjoint(tx, done) && done.got == |done.plan|
  }

  lemma TxOkMeans(t: Tables, keys: set<string>, tx: Tx)
    requires TxOk(t, keys, tx)
    ensures Unready(t, tx.op) == None && tx.plan == Plan(t, tx.op, tx.request)
    ensures tx.got <= |tx.plan| && tx.level <= 5 && Reached(tx, tx.level)
  {
  }

  lemma LowerUnshared(tx: Tx, done: Tx, r: Resource)
    requires Outranked(tx, done) && HasLock(tx, r) && Grade(r) < tx.level
    ensures !HasLock(done, r)
  {
    var i :| 0 <= i < |tx.plan| && tx.plan[i].on == r;
    assert i < tx.got;
  }

  /** What a plan contains. */
  lemma PlanHas(t: Tables, tx: Tx)
    requires Unready(t, tx.op) == None && tx.plan == Plan(t, tx.op, tx.request)
    ensures RowOf(tx.op).Some? ==> HasLock(tx, WithdrawalRow(RowOf(tx.op).value))
    ensures forall a :: a in AccountsLocked(t, tx.op) ==> HasLock(tx, AccountRow(a))
    ensures Records.Journaled(tx.op).Some? ==> HasLock(tx, CauseKey(Records.Journaled(tx.op).value))
    ensures tx.request.Some? ==> HasLock(tx, RequestKey(tx.request.value))
  {
    var row, nonce, cause := RowLocks(tx.op), NonceLocks(tx.op), CauseLocks(tx.op);
    var accounts := AccountLocks(AccountsLocked(t, tx.op));
    var n, a := |row + nonce|, |accounts|;
    assert RowOf(tx.op).Some? ==> tx.plan[0] == row[0];
    forall x | x in AccountsLocked(t, tx.op) ensures HasLock(tx, AccountRow(x)) {
      var i :| 0 <= i < a && AccountsLocked(t, tx.op)[i] == x;
      assert tx.plan[n + i] == accounts[i];
    }
    assert cause != [] ==> tx.plan[n + a] == cause[0];
    assert tx.request.Some? ==> tx.plan[n + a + |cause|].on == RequestKey(tx.request.value);
  }

  /** Whoever is still open holds what it held. */
  lemma NoneSharedStill(s: World, s': World)
    requires NoneShared(s)
    requires forall id :: id in s'.txs ==>
            id in s.txs && s'.txs[id].plan == s.txs[id].plan && s'.txs[id].got == s.txs[id].got
    requires forall chain :: chain in s'.polls ==> chain in s.polls && s'.polls[chain] == s.polls[chain]
    ensures NoneShared(s')
  {
    forall id, id' | id in s'.txs && id' in s'.txs && id != id' ensures Disjoint(s'.txs[id], s'.txs[id']) {
      assert Disjoint(s.txs[id], s.txs[id']);
    }
    forall id, chain | id in s'.txs && chain in s'.polls ensures Separate(s'.txs[id], s'.polls[chain]) {
      assert Separate(s.txs[id], s.polls[chain]);
    }
  }

  lemma BatchesKept(t: Tables, polls: map<Chain, Batch>, op: Op)
    requires AllBatchOk(t, polls) && forall chain :: chain in polls ==> !OfWatcher(t, chain, op)
    ensures AllBatchOk(Apply(t, op), polls)
  {
    hide BatchOk, Apply, OfWatcher;
    forall chain | chain in polls
      ensures BatchOk(Apply(t, op), chain, polls[chain])
    {
      BatchKept(t, chain, polls[chain], op);
    }
  }

  lemma TxsAfterCommit(s: World, id: nat, s': World)
    requires Books.Referenced(s.t) && AllTxOk(s.t, s.keys, s.txs) && NoneShared(s) && id in s.txs
    requires s.txs[id].got == |s.txs[id].plan|
    requires Check(s.t, s.txs[id].op) == None && Unready(s.t, s.txs[id].op) == None && s'.t == Effect(s.t, s.txs[id].op)
    requires s'.txs == s.txs - {id}
            && s'.keys == if s.txs[id].request.Some? then s.keys + {s.txs[id].request.value} else s.keys
    ensures AllTxOk(s'.t, s'.keys, s'.txs)
  {
    var done := s.txs[id];
    hide Check, Effect, TxOk, Unready, Books.Referenced, Disjoint, Separate;
    forall other | other in s'.txs ensures TxOk(s'.t, s'.keys, s'.txs[other]) {
      TxAfterCommit(s, s.txs[other], done, s'.keys);
    }
  }

  lemma TxAfterCommit(s: World, tx: Tx, done: Tx, keys': set<string>)
    requires Books.Referenced(s.t) && TxOk(s.t, s.keys, tx) && TxOk(s.t, s.keys, done) && Disjoint(tx, done)
    requires done.got == |done.plan|
    requires Check(s.t, done.op) == None && Unready(s.t, done.op) == None
    requires keys' == if done.request.Some? then s.keys + {done.request.value} else s.keys
    ensures TxOk(Effect(s.t, done.op), keys', tx)
  {
    HeldClear(s.t, s.keys, tx, done);
    assert tx.level == 5 && tx.request.Some? ==> tx.request.value !in s.keys;
    hide Check, Effect, TxOk, Unready, Books.Referenced, Disjoint, Clear;
    TxKept(s.t, s.keys, keys', tx, done.op);
  }

  /** What a caller's commit writes is what it does when run alone, and every open transaction survives it. */
  lemma CommitKept(t: Tables, s: World, id: nat, s': World)
    requires Inv(t, s) && Next(s, Step.Commit(id), s')
    ensures Check(s.t, s.txs[id].op) == None && s'.t == Apply(s.t, s.txs[id].op) && Inv(t, s')
  {
    var done := s.txs[id];
    assert TxOk(s.t, s.keys, done) && Unready(s.t, done.op) == None;
    assert Check(s.t, done.op) == None by { GuardsAreCheck(s.t, done.op, 4); }
    RunSnoc(t, s.history, done.op);
    Books.ReconciledStep(s.t, done.op);
    ReconciledRefers(s.t);
    LockingIsNoWatcher(s.t, done.op);
    hide Check, Effect, TxOk, Run, Unready, Books.Reconciled, Books.Referenced, AllTxOk, AllBatchOk, NoneShared, Fresh,
        OfWatcher;
    TxsAfterCommit(s, id, s');
    BatchesKept(s.t, s.polls, done.op);
    NoneSharedStill(s, s');
  }

  lemma LockingIsNoWatcher(t: Tables, op: Op)
    requires Locking(op)
    ensures forall chain :: !OfWatcher(t, chain, op)
  {
  }

  lemma AloneKept(t: Tables, s: World, op: Op, s': World)
    requires Inv(t, s) && Next(s, Alone(op), s')
    ensures Inv(t, s')
  {
    hide Apply, TxOk, AllBatchOk, NoneShared, Books.Reconciled, Fresh, OfWatcher;
    RunSnoc(t, s.history, op);
    Books.ReconciledStep(s.t, op);
    hide Run;
    forall id | id in s.txs ensures TxOk(s'.t, s'.keys, s.txs[id]) { TxKeptAlone(s.t, s.keys, s.txs[id], op); }
    BatchesKept(s.t, s.polls, op);
    NoneSharedStill(s, s');
  }

  /** At its commit, every credit of a poll succeeds, as it would have when the poll selected. */
  lemma SelectionStands(t: Tables, s: World, chain: Chain)
    requires Inv(t, s) && chain in s.polls
    ensures var b := s.polls[chain]; AllSucceed(PollView(s.t, chain, b.tags), Credits(b.ids, b.now))
    ensures var b := s.polls[chain];
            Run(s.t, Written(chain, b)) == Run(PollView(s.t, chain, b.tags), Credits(b.ids, b.now))
    ensures var b := s.polls[chain]; forall i :: 0 <= i < |b.ids| ==> DepositCredit(b.ids[i]) !in Causes(s.t.journal)
  {
    var b := s.polls[chain];
    var first := Promoting(chain, b.tags);
    assert BatchOk(s.t, chain, b);
    RunConcat(t, s.history, first);
    RunConcat(s.t, first, Credits(b.ids, b.now));
    PromotedRows(s.t, chain, b.tags);
    hide Run, Eligible, Check, Promoting;
    Crediting.CreditsSucceed(t, s.history + first, b.ids, b.now);
    forall i | 0 <= i < |b.ids| ensures DepositCredit(b.ids[i]) !in Causes(s.t.journal) {
      Crediting.EligibleIsCreditable(t, s.history + first, b.ids[i], b.now);
      CreditNeedsKey(PollView(s.t, chain, b.tags), b.ids[i], b.now);
    }
  }

  lemma CreditNeedsKey(t: Tables, d: DepositId, now: Time)
    requires Check(t, Credit(d, now)) == None
    ensures DepositCredit(d) !in Causes(t.journal)
  {
  }

  lemma CommitPollKept(t: Tables, s: World, chain: Chain, s': World)
    requires Inv(t, s) && Next(s, CommitPoll(chain), s')
    ensures Inv(t, s')
  {
    var ops := Written(chain, s.polls[chain]);
    PollWrites(t, s, chain, s');
    RunConcat(t, s.history, ops);
    Books.AlwaysReconciled(t, s.history + ops);
    hide TxOk, NoneShared, Books.Reconciled, Run, Fresh, Written, AllBatchOk, AllTxOk, Next;
    TxsAfterPoll(s, chain, ops);
    BatchesAfterPoll(s, chain, ops);
    NoneSharedStill(s, s');
  }

  lemma PollWrites(t: Tables, s: World, chain: Chain, s': World)
    requires Inv(t, s) && Next(s, CommitPoll(chain), s')
    ensures chain in s.polls
    ensures var ops := Written(chain, s.polls[chain]);
            s' == s.(t := Run(s.t, ops), polls := s.polls - {chain}, history := s.history + ops)
  {
    SelectionStands(t, s, chain);
    hide Inv, Run, Written, AllSucceed, Credits, PollView;
  }

  lemma TxsAfterPoll(s: World, chain: Chain, ops: seq<Op>)
    requires Books.Reconciled(s.t) && AllTxOk(s.t, s.keys, s.txs) && chain in s.polls
    requires ops == Written(chain, s.polls[chain])
    ensures AllTxOk(Run(s.t, ops), s.keys, s.txs)
  {
    WrittenByWatcher(chain, s.polls[chain]);
    hide TxOk, Books.Reconciled, Run, Written, Locking;
    forall id | id in s.txs ensures TxOk(Run(s.t, ops), s.keys, s.txs[id]) { TxKeptByAll(s.t, s.keys, s.txs[id], ops); }
  }

  lemma BatchesAfterPoll(s: World, chain: Chain, ops: seq<Op>)
    requires AllBatchOk(s.t, s.polls) && chain in s.polls && ops == Written(chain, s.polls[chain])
    ensures AllBatchOk(Run(s.t, ops), s.polls - {chain})
  {
    assert BatchOk(s.t, chain, s.polls[chain]);
    assert AllJoined(s.t, s.polls[chain].ids) && OnChainAll(s.t, chain, s.polls[chain].ids);
    hide BatchOk, Run, Written, AllJoined, OnChainAll, AllForeign;
    forall other | other in s.polls && other != chain ensures BatchOk(Run(s.t, ops), other, s.polls[other]) {
      WrittenForeign(s.t, chain, s.polls[chain], other);
      BatchKeptByAll(s.t, other, s.polls[other], ops);
    }
  }

  lemma ClaimsAre(s: World)
    ensures forall id :: Caller(id) in Claims(s) <==> id in s.txs
    ensures forall chain :: Crediter(chain) in Claims(s) <==> chain in s.polls
    ensures forall id :: id in s.txs ==> Claims(s)[Caller(id)] == Claimant(s.txs[id].plan, s.txs[id].got)
    ensures forall chain :: chain in s.polls ==>
            Claims(s)[Crediter(chain)] == Claimant(s.polls[chain].plan, s.polls[chain].got)
  {
    assert forall id :: id in s.txs ==> Caller(id) in Parties(s);
    assert forall chain :: chain in s.polls ==> Crediter(chain) in Parties(s);
  }

  /** A free lock is held by nobody else, if either mode is exclusive. */
  lemma NotHeld(m: Claimants, p: Party, q: Party)
    requires AllValid(m) && p in m && q in m && p != q && CanTake(m, p)
    ensures forall j ::
            0 <= j < m[q].got && (m[q].plan[j].mode == Exclusive || m[p].plan[m[p].got].mode == Exclusive) ==>
              m[q].plan[j].on != m[p].plan[m[p].got].on
  {
    forall j | 0 <= j < m[q].got && (m[q].plan[j].mode == Exclusive || m[p].plan[m[p].got].mode == Exclusive)
      ensures m[q].plan[j].on != m[p].plan[m[p].got].on
    {
      assert !Conflicts(m[q].plan[j], m[p].plan[m[p].got]);
    }
  }

  /** Every lock in the plan of a caller's open transaction is exclusive. */
  lemma CallerExclusive(t: Tables, s: World, id: nat)
    requires Inv(t, s) && id in s.txs
    ensures s.txs[id].got <= |s.txs[id].plan| && forall i :: 0 <= i < |s.txs[id].plan| ==>
            s.txs[id].plan[i].mode == Exclusive
  {
    assert TxOk(s.t, s.keys, s.txs[id]);
    hide Plan, Guard;
    PlanOrdered(s.t, s.txs[id].op, s.txs[id].request);
  }

  lemma HeldApart(t: Tables, s: World, id: nat)
    requires Inv(t, s) && id in s.txs
    ensures forall other :: other in s.txs && other != id ==>
            Disjoint(s.txs[id], s.txs[other]) && Disjoint(s.txs[other], s.txs[id])
    ensures forall chain :: chain in s.polls ==> Separate(s.txs[id], s.polls[chain])
  {
    hide TxOk, BatchOk, Disjoint, Separate;
  }

  /** What a caller is about to take, no other caller holds. */
  lemma FreeOfCallers(t: Tables, s: World, p: Party, other: nat)
    requires Inv(t, s) && other in s.txs && AllValid(Claims(s)) && p in Claims(s) && CanTake(Claims(s), p)
    requires p != Caller(other)
    ensures forall j :: 0 <= j < s.txs[other].got <= |s.txs[other].plan| ==>
            s.txs[other].plan[j].on != NextLock(Claims(s), p)
  {
    hide Inv, Claims, AllValid, CanTake;
    CallerExclusive(t, s, other);
    ClaimsAre(s);
    NotHeld(Claims(s), p, Caller(other));
  }

  /** What a caller is about to take, no poll holds. */
  lemma FreeOfPolls(t: Tables, s: World, id: nat, chain: Chain)
    requires Inv(t, s) && id in s.txs && chain in s.polls && AllValid(Claims(s)) && Caller(id) in Claims(s)
    requires CanTake(Claims(s), Caller(id))
    ensures forall j :: 0 <= j < s.polls[chain].got <= |s.polls[chain].plan| ==>
            s.polls[chain].plan[j].on != NextLock(Claims(s), Caller(id))
  {
    hide Inv, Claims, AllValid, CanTake, Claimant.Done;
    CallerExclusive(t, s, id);
    ClaimsAre(s);
    TakerOpen(Claims(s), Caller(id));
    NotHeld(Claims(s), Caller(id), Crediter(chain));
  }

  lemma TakerOpen(m: Claimants, p: Party)
    requires AllValid(m) && p in m && CanTake(m, p)
    ensures !m[p].Done() && m[p].got < |m[p].plan| && NextLock(m, p) == m[p].plan[m[p].got].on
  {
  }

  /** Taking a lock keeps the lock sets apart, because every caller's lock is exclusive. */
  lemma TakeKept(t: Tables, s: World, id: nat, s': World)
    requires Inv(t, s) && Next(s, Take(id), s')
    ensures Inv(t, s')
  {
    TakeOk(s, id, s');
    TakeApart(t, s, id, s');
    hide TxOk, AllBatchOk, Claims, Run, Books.Reconciled, Fresh, CanTake, AllValid, NoneShared;
  }

  lemma TakeApart(t: Tables, s: World, id: nat, s': World)
    requires Inv(t, s) && Next(s, Take(id), s')
    ensures NoneShared(s')
  {
    assert NoneShared(s);
    TakeMeans(s, id, s');
    var tx, tx' := s.txs[id], s'.txs[id];
    hide Inv, Claims, CanTake, AllValid, Disjoint, Separate, Next, NoneShared, NextLock;
    HeldApart(t, s, id);
    forall other | other in s.txs && other != id ensures Disjoint(tx', s.txs[other]) && Disjoint(s.txs[other], tx') {
      FreeOfCallers(t, s, Caller(id), other);
      OneMore(tx, s.txs[other]);
    }
    forall chain | chain in s.polls ensures Separate(tx', s.polls[chain]) {
      FreeOfPolls(t, s, id, chain);
      OneMoreSeparate(tx, s.polls[chain]);
    }
    NoneSharedTx(s, id, tx', s');
  }

  lemma TakeMeans(s: World, id: nat, s': World)
    requires Next(s, Take(id), s')
    ensures id in s.txs && s'.polls == s.polls && s'.txs == s.txs[id := s.txs[id].(got := s.txs[id].got + 1)]
    ensures AllValid(Claims(s)) && Caller(id) in Claims(s) && CanTake(Claims(s), Caller(id))
    ensures s.txs[id].got < |s.txs[id].plan| && NextLock(Claims(s), Caller(id)) == s.txs[id].plan[s.txs[id].got].on
  {
    ClaimsAre(s);
    TakerOpen(Claims(s), Caller(id));
    hide Claims, AllValid, CanTake;
  }

  lemma OneMore(tx: Tx, other: Tx)
    requires tx.got < |tx.plan| && Disjoint(tx, other) && Disjoint(other, tx)
    requires forall j :: 0 <= j < other.got <= |other.plan| ==> other.plan[j].on != tx.plan[tx.got].on
    ensures Disjoint(tx.(got := tx.got + 1), other) && Disjoint(other, tx.(got := tx.got + 1))
  {
  }

  lemma OneMoreSeparate(tx: Tx, b: Batch)
    requires tx.got < |tx.plan| && Separate(tx, b)
    requires forall j :: 0 <= j < b.got <= |b.plan| ==> b.plan[j].on != tx.plan[tx.got].on
    ensures Separate(tx.(got := tx.got + 1), b)
  {
  }

  lemma InsertedSeparate(tx: Tx, b: Batch)
    requires b.got < |b.plan| && Separate(tx, b)
    requires forall i :: 0 <= i < tx.got <= |tx.plan| ==> tx.plan[i].on != b.plan[b.got].on
    ensures Separate(tx, b.(got := b.got + 1))
  {
  }

  lemma TakeOk(s: World, id: nat, s': World)
    requires id in s.txs && TxOk(s.t, s.keys, s.txs[id]) && Next(s, Take(id), s')
    ensures TxOk(s'.t, s'.keys, s'.txs[id])
  {
    ClaimsAre(s);
    hide Claims, Plan, Guard, Unready;
  }

  lemma InsertKept(t: Tables, s: World, chain: Chain, s': World)
    requires Inv(t, s) && Next(s, Insert(chain), s')
    ensures Inv(t, s')
  {
    assert AllBatchOk(s'.t, s'.polls) by { InsertOk(t, s, chain, s'); }
    assert NoneShared(s') by { InsertApart(t, s, chain, s'); }
    hide AllBatchOk, AllTxOk, Claims, Run, Books.Reconciled, Fresh, CanTake, AllValid, NoneShared, Collides;
  }

  lemma InsertOk(t: Tables, s: World, chain: Chain, s': World)
    requires AllBatchOk(s.t, s.polls) && Next(s, Insert(chain), s')
    ensures AllBatchOk(s'.t, s'.polls)
  {
    ClaimsAre(s);
    TakerOpen(Claims(s), Crediter(chain));
    assert BatchOk(s.t, chain, s.polls[chain]);
    hide Claims, CanTake, AllValid, CreditPlan, Eligible, Collides;
  }

  lemma InsertApart(t: Tables, s: World, chain: Chain, s': World)
    requires Inv(t, s) && Next(s, Insert(chain), s')
    ensures NoneShared(s')
  {
    InsertMeans(s, chain, s');
    if chain in s'.polls {
      InsertedApart(t, s, chain, s');
    } else {
      assert NoneShared(s);
      hide Inv, Next, NoneShared, Claims;
      NoneSharedStill(s, s');
    }
  }

  lemma InsertMeans(s: World, chain: Chain, s': World)
    requires Next(s, Insert(chain), s')
    ensures chain in s.polls && s'.txs == s.txs && AllValid(Claims(s)) && Crediter(chain) in Claims(s)
    ensures CanTake(Claims(s), Crediter(chain))
    ensures s.polls[chain].got < |s.polls[chain].plan|
    ensures NextLock(Claims(s), Crediter(chain)) == s.polls[chain].plan[s.polls[chain].got].on
    ensures s'.polls == if Collides(s.t, s.polls[chain]) then s.polls - {chain}
                        else s.polls[chain := s.polls[chain].(got := s.polls[chain].got + 1)]
  {
    ClaimsAre(s);
    TakerOpen(Claims(s), Crediter(chain));
    hide Claims, AllValid, CanTake, Collides;
  }

  lemma InsertedApart(t: Tables, s: World, chain: Chain, s': World)
    requires Inv(t, s) && chain in s.polls && AllValid(Claims(s)) && Crediter(chain) in Claims(s)
    requires CanTake(Claims(s), Crediter(chain))
    requires s.polls[chain].got < |s.polls[chain].plan|
    requires NextLock(Claims(s), Crediter(chain)) == s.polls[chain].plan[s.polls[chain].got].on
    requires s'.txs == s.txs && s'.polls == s.polls[chain := s.polls[chain].(got := s.polls[chain].got + 1)]
    ensures NoneShared(s')
  {
    var b := s.polls[chain];
    assert NoneShared(s);
    hide Inv, Claims, CanTake, AllValid, Disjoint, Separate, NoneShared, NextLock;
    forall id | id in s.txs ensures Separate(s.txs[id], s'.polls[chain]) {
      HeldApart(t, s, id);
      FreeOfCallers(t, s, Crediter(chain), id);
      InsertedSeparate(s.txs[id], b);
    }
    NoneSharedPoll(s, chain, s'.polls[chain], s');
  }

  lemma NoneSharedPoll(s: World, chain: Chain, b: Batch, s': World)
    requires NoneShared(s) && s'.txs == s.txs && s'.polls == s.polls[chain := b] && forall id :: id in s.txs ==>
            Separate(s.txs[id], b)
    ensures NoneShared(s')
  {
    hide Disjoint, Separate;
  }

  lemma NoneSharedTx(s: World, id: nat, tx: Tx, s': World)
    requires NoneShared(s) && s'.polls == s.polls && s'.txs == s.txs[id := tx]
    requires forall other :: other in s.txs && other != id ==> Disjoint(tx, s.txs[other]) && Disjoint(s.txs[other], tx)
    requires forall chain :: chain in s.polls ==> Separate(tx, s.polls[chain])
    ensures NoneShared(s')
  {
    hide Disjoint, Separate;
  }

  lemma SelectKept(t: Tables, s: World, step: Step, s': World)
    requires Inv(t, s) && step.Select? && Next(s, step, s')
    ensures Inv(t, s')
  {
    SelectOk(s, step, s');
    hide AllTxOk, Books.Reconciled, Fresh, BatchOk, Run, EligibleAgesOf, OldestFirst, AllJoined, PollView, NoneShared;
    NoneSharedPoll(s, step.chain, s'.polls[step.chain], s') by { assert forall id :: id in s.txs ==>
        Separate(s.txs[id], s'.polls[step.chain]); }
  }

  lemma SelectOk(s: World, step: Step, s': World)
    requires step.Select? && Next(s, step, s')
    ensures BatchOk(s'.t, step.chain, s'.polls[step.chain])
  {
    var view := PollView(s.t, step.chain, step.tags);
    PromotedRows(s.t, step.chain, step.tags);
    hide Run, Promoting, Eligible, CreditPlan;
    forall i | 0 <= i < |step.ids|
      ensures Eligible(view, step.ids[i]) && s.t.deposits[step.ids[i]].transfer.chain == step.chain
    {
      assert step.ids[i] in EligibleAgesOf(view, step.chain);
    }
  }

  lemma LookKept(t: Tables, s: World, id: nat, s': World)
    requires Inv(t, s) && Next(s, Look(id), s')
    ensures Inv(t, s')
  {
    hide TxOk, AllBatchOk, NoneShared, Run, Books.Reconciled, Fresh;
    LookMeans(s, id, s');
    if id in s'.txs { LookOk(s, id, s'); }
    hide Next;
    NoneSharedStill(s, s');
  }

  lemma LookMeans(s: World, id: nat, s': World)
    requires Next(s, Look(id), s')
    ensures id in s.txs && s' == s.(txs := s'.txs)
    ensures s'.txs == s.txs - {id} || s'.txs == s.txs[id := s.txs[id].(level := s.txs[id].level + 1)]
  {
    hide Passes, Unready, Reached;
  }

  lemma LookOk(s: World, id: nat, s': World)
    requires id in s.txs && TxOk(s.t, s.keys, s.txs[id]) && Next(s, Look(id), s') && id in s'.txs
    ensures TxOk(s'.t, s'.keys, s'.txs[id])
  {
    var tx := s.txs[id];
    hide Plan, Guard, Unready;
    forall k: nat | 1 <= k <= tx.level + 1 ensures Guard(s.t, tx.op, k) == None {
      assert k <= tx.level ==> Guard(s.t, tx.op, k) == None;
      if k == tx.level + 1 && k == 5 { NoFifthGuard(s.t, tx.op); }
    }
  }

  lemma NoFifthGuard(t: Tables, op: Op)
    requires Unready(t, op) == None
    ensures Guard(t, op, 5) == None
  {
  }

  lemma BeginKept(t: Tables, s: World, step: Step, s': World)
    requires Inv(t, s) && step.Begin? && Next(s, step, s')
    ensures Inv(t, s')
  {
    hide Plan, Guard, Unready, BatchOk, Run, Books.Reconciled, Fresh;
    assert TxOk(s'.t, s'.keys, s'.txs[step.id]);
    hide TxOk;
  }

  lemma DropKept(t: Tables, s: World, step: Step, s': World)
    requires Inv(t, s) && (step.Abort? || step.AbortPoll?) && Next(s, step, s')
    ensures Inv(t, s')
  {
    hide TxOk, BatchOk, Run, Books.Reconciled, Fresh, NoneShared;
    NoneSharedStill(s, s');
  }

  lemma StepKeepsInv(t: Tables, s: World, step: Step, s': World)
    requires Inv(t, s) && Next(s, step, s')
    ensures Inv(t, s')
  {
    hide Inv, Next;
    match step
    case Begin(_, _, _) => BeginKept(t, s, step, s');
    case Take(id) => TakeKept(t, s, id, s');
    case Look(id) => LookKept(t, s, id, s');
    case Commit(id) => CommitKept(t, s, id, s');
    case Abort(_) => DropKept(t, s, step, s');
    case Select(_, _, _, _) => SelectKept(t, s, step, s');
    case Insert(chain) => InsertKept(t, s, chain, s');
    case CommitPoll(chain) => CommitPollKept(t, s, chain, s');
    case AbortPoll(_) => DropKept(t, s, step, s');
    case Alone(op) => AloneKept(t, s, op, s');
  }

  lemma {:induction false} AlwaysInv(run: seq<World>, i: nat)
    requires IsRun(run) && i < |run|
    ensures Inv(run[0].t, run[i])
  {
    hide Next;
    if i == 0 {
      Books.AlwaysReconciled(run[0].t, []);
      RunEmpty(run[0].t);
    } else {
      AlwaysInv(run, i - 1);
      assert Moves(run[i - 1], run[i]);
      var step :| Next(run[i - 1], step, run[i]);
      hide Inv;
      StepKeepsInv(run[0].t, run[i - 1], step, run[i]);
    }
  }

  // ---- what it gives ----

  /**
    Serializability. In every state of every interleaving the tables are what running the
    committed transactions one after the other, in commit order, would give.
   */
  lemma Serializable(run: seq<World>, i: nat)
    requires IsRun(run) && i < |run|
    ensures run[i].t == Run(run[0].t, run[i].history)
  {
    AlwaysInv(run, i);
  }

  /** At the instant of its commit, every check of a transaction still holds. */
  lemma CommitsAsChecked(run: seq<World>, i: nat, id: nat, s': World)
    requires IsRun(run) && i < |run| && Next(run[i], Step.Commit(id), s')
    ensures Check(run[i].t, run[i].txs[id].op) == None && s'.t == Effect(run[i].t, run[i].txs[id].op)
  {
    AlwaysInv(run, i);
    CommitKept(run[0].t, run[i], id, s');
  }

  /** A transaction about to commit holds an idempotency key nobody has committed. */
  lemma RequestKeyFree(run: seq<World>, i: nat, id: nat)
    requires IsRun(run) && i < |run| && id in run[i].txs && run[i].txs[id].level == 5 && run[i].txs[id].request.Some?
    ensures run[i].txs[id].request.value !in run[i].keys
  {
    AlwaysInv(run, i);
    assert TxOk(run[i].t, run[i].keys, run[i].txs[id]);
  }

  /**
    A poll looks at eligibility once. When it commits, every deposit it selected can still be
    credited, and it commits exactly its promotions and those credits, in order.
   */
  lemma PollCommitsAsSelected(run: seq<World>, i: nat, chain: Chain, s': World)
    requires IsRun(run) && i < |run| && Next(run[i], CommitPoll(chain), s')
    ensures var b := run[i].polls[chain];
            && AllSucceed(Run(run[i].t, Promoting(chain, b.tags)), Credits(b.ids, b.now))
            && s'.t == Run(run[i].t, Promoting(chain, b.tags) + Credits(b.ids, b.now))
  {
    AlwaysInv(run, i);
    SelectionStands(run[0].t, run[i], chain);
    hide Run, Credits, Promoting, AllSucceed, Inv;
  }

  /** No poll ever finds one of its deposits journaled already: a credit never fails on its unique key. */
  lemma CreditsNeverCollide(run: seq<World>, i: nat, chain: Chain)
    requires IsRun(run) && i < |run| && chain in run[i].polls && run[i].polls[chain].got < |run[i].polls[chain].plan|
    ensures !Collides(run[i].t, run[i].polls[chain])
  {
    AlwaysInv(run, i);
    SelectionStands(run[0].t, run[i], chain);
    assert BatchOk(run[i].t, chain, run[i].polls[chain]);
    hide Inv, Run, Eligible;
  }

  /** No interleaving overdraws a customer: available balances are never negative, and the books always reconcile. */
  lemma NeverOverdrawn(run: seq<World>, i: nat, c: CustomerId, chain: Chain, asset: Asset)
    requires IsRun(run) && i < |run| && AvailableOf(c, chain, asset) in run[i].t.accounts
    ensures Balance(run[i].t, run[i].t.accounts[AvailableOf(c, chain, asset)]) >= 0
    ensures Books.Reconciled(run[i].t) && Records.Exact(run[i].t)
  {
    AlwaysInv(run, i);
    Records.AlwaysExact(run[0].t, run[i].history);
    assert Books.Covered(run[i].t, c, chain, asset);
  }

  /** The balance a transaction has checked stays covered for as long as it is open. */
  lemma CheckedBalanceHolds(run: seq<World>, i: nat, id: nat)
    requires IsRun(run) && i < |run| && id in run[i].txs && run[i].txs[id].level >= 3
    ensures Unready(run[i].t, run[i].txs[id].op) == None && BalanceGuard(run[i].t, run[i].txs[id].op) == None
  {
    AlwaysInv(run, i);
    assert TxOk(run[i].t, run[i].keys, run[i].txs[id]);
    assert Guard(run[i].t, run[i].txs[id].op, 3) == None;
  }

  /** A check that fails gives exactly the error the whole transaction would give if run alone at that instant. */
  lemma ErrorsExact(run: seq<World>, i: nat, id: nat)
    requires IsRun(run) && i < |run| && id in run[i].txs && run[i].txs[id].level < 4
    ensures var tx := run[i].txs[id];
            Unready(run[i].t, tx.op) == None
                && (!Passes(run[i], tx) ==> Check(run[i].t, tx.op) == Guard(run[i].t, tx.op, tx.level + 1))
  {
    AlwaysInv(run, i);
    assert TxOk(run[i].t, run[i].keys, run[i].txs[id]);
    GuardsAreCheck(run[i].t, run[i].txs[id].op, run[i].txs[id].level);
  }

  // ---- who can move ----

  function BatchesOf(s: World): Batches { map chain | chain in s.polls :: s.polls[chain].ids }

  lemma OpenContend(t: Tables, s: World)
    requires Inv(t, s)
    ensures Books.DistinctAccounts(s.t.accounts) && AllValid(Claims(s)) && Contending(s.t, Claims(s), BatchesOf(s))
  {
    ClaimsAre(s);
    ReconciledRefers(s.t);
    var m := Claims(s);
    forall p | p in m ensures m[p].Valid() && (p.Caller? ==> CallerLike(s.t, m[p].plan)) {
      OneContends(t, s, p);
    }
    CompatibleOpen(t, s);
    assert forall chain :: chain in s.polls ==> BatchOk(s.t, chain, s.polls[chain]);
    hide Inv, Claims, CallerLike, Compatible, Eligible, CreditPlan, Claimant.Valid;
  }

  lemma OneContends(t: Tables, s: World, p: Party)
    requires Inv(t, s) && p in Claims(s)
    ensures Claims(s)[p].Valid() && (p.Caller? ==> CallerLike(s.t, Claims(s)[p].plan))
  {
    ClaimsAre(s);
    match p
    case Caller(id) =>
      assert id in s.txs && TxOk(s.t, s.keys, s.txs[id]);
      ReconciledRefers(s.t);
      hide Claims, Plan, Guard, CallerLike, Unready;
      CallersAreAlike(s.t, s.txs[id].op, s.txs[id].request);
    case Crediter(chain) =>
      assert chain in s.polls && BatchOk(s.t, chain, s.polls[chain]);
      hide Claims;
  }

  lemma CompatibleOpen(t: Tables, s: World)
    requires Inv(t, s) && AllValid(Claims(s))
    ensures Compatible(Claims(s))
  {
    var m := Claims(s);
    forall p, q, i, j | p in m && q in m && p != q && 0 <= i < m[p].got && 0 <= j < m[q].got
      ensures !Conflicts(m[p].plan[i], m[q].plan[j])
    {
      PairCompatible(t, s, p, q, i, j);
    }
  }

  lemma PairCompatible(t: Tables, s: World, p: Party, q: Party, i: nat, j: nat)
    requires Inv(t, s) && AllValid(Claims(s))
    requires p in Claims(s) && q in Claims(s) && p != q && i < Claims(s)[p].got && j < Claims(s)[q].got
    ensures !Conflicts(Claims(s)[p].plan[i], Claims(s)[q].plan[j])
  {
    ClaimsAre(s);
    ReconciledRefers(s.t);
    match (p, q)
    case (Caller(id), Caller(id')) =>
      assert Claims(s)[p].Valid() && Claims(s)[q].Valid();
      hide Claims, TxOk, BatchOk;
      assert Disjoint(s.txs[id], s.txs[id']);
    case (Caller(id), Crediter(chain)) =>
      assert Claims(s)[p].Valid() && Claims(s)[q].Valid();
      hide Claims, TxOk, BatchOk;
      assert Separate(s.txs[id], s.polls[chain]);
    case (Crediter(chain), Caller(id)) =>
      assert Claims(s)[p].Valid() && Claims(s)[q].Valid();
      hide Claims, TxOk, BatchOk;
      assert Separate(s.txs[id], s.polls[chain]);
    case (Crediter(chain), Crediter(chain')) =>
      assert BatchOk(s.t, chain, s.polls[chain]) && BatchOk(s.t, chain', s.polls[chain']);
      hide Claims, TxOk;
      ChainsApart(s.t, chain, s.polls[chain].ids, chain', s.polls[chain'].ids, i, j);
  }

  predicate Progresses(step: Step) { step.Take? || step.Look? || step.Commit? || step.Insert? || step.CommitPoll? }

  /**
    In every reachable state with open transactions, if no open poll credits a higher account
    before a lower one of the same chain and asset, some transaction can move on; with no poll
    open at all, no chain of waits ever returns to its start.
   */
  lemma SomeoneMoves(run: seq<World>, i: nat) returns (step: Step, s': World)
    requires IsRun(run) && i < |run| && (run[i].txs != map[] || run[i].polls != map[])
    requires forall chain :: chain in run[i].polls ==> !SomeInversion(run[i].t, BatchesOf(run[i]), chain)
    ensures Progresses(step) && Next(run[i], step, s')
    ensures AllValid(Claims(run[i]))
    ensures run[i].polls == map[] ==> forall path :: WaitChain(Claims(run[i]), path) ==> path[0] != path[|path| - 1]
  {
    AlwaysInv(run, i);
    var s := run[i];
    OpenContend(run[0].t, s);
    if s.polls == map[] { NoCycles(s); }
    var p := Unblocked(s);
    hide Contending, AllValid, Next;
    step, s' := Moving(run[0].t, s, p);
  }

  lemma OnlyCallers(s: World)
    requires s.polls == map[]
    ensures forall p :: p in Claims(s) ==> p.Caller? && p.id in s.txs
  {
  }

  lemma NoCycles(s: World)
    requires s.polls == map[] && AllValid(Claims(s)) && Contending(s.t, Claims(s), BatchesOf(s))
    ensures forall path :: WaitChain(Claims(s), path) ==> path[0] != path[|path| - 1]
  {
    var m := Claims(s);
    ClaimsAre(s);
    OnlyCallers(s);
    forall p | p in m ensures Ordered(m[p].plan) {
      assert CallerLike(s.t, m[Caller(p.id)].plan);
    }
    hide Contending, Claims, Ordered;
    forall path | WaitChain(m, path) ensures path[0] != path[|path| - 1] { WaitsAcyclic(m, path); }
  }

  /** Were every open transaction blocked, some open poll would be inverted. */
  lemma Unblocked(s: World) returns (p: Party)
    requires Books.DistinctAccounts(s.t.accounts) && AllValid(Claims(s)) && Contending(s.t, Claims(s), BatchesOf(s))
    requires s.txs != map[] || s.polls != map[]
    requires forall chain :: chain in s.polls ==> !SomeInversion(s.t, BatchesOf(s), chain)
    ensures p in Claims(s) && (Claims(s)[p].Done() || CanTake(Claims(s), p))
  {
    SomeoneOpen(s);
    assert forall chain :: SomeInversion(s.t, BatchesOf(s), chain) ==> chain in s.polls;
    hide Claims, Contending, SomeInversion, AllValid, CanTake, Claimant.Done, Books.DistinctAccounts, BatchesOf;
    p := UnblockedAmong(s.t, Claims(s), BatchesOf(s));
  }

  lemma UnblockedAmong(t: Tables, m: Claimants, batches: Batches) returns (p: Party)
    requires Books.DistinctAccounts(t.accounts) && AllValid(m) && Contending(t, m, batches) && m != map[]
    requires forall chain :: !SomeInversion(t, batches, chain)
    ensures p in m && (m[p].Done() || CanTake(m, p))
  {
    hide Contending, SomeInversion, AllValid, CanTake, Claimant.Done, Books.DistinctAccounts, Stuck;
    if forall p :: p in m ==> !m[p].Done() && !CanTake(m, p) {
      AllBlocked(m);
      var chain := StuckMeansInverted(t, m, batches, m.Keys);
    }
    p :| p in m && (m[p].Done() || CanTake(m, p));
  }

  lemma SomeoneOpen(s: World)
    requires s.txs != map[] || s.polls != map[]
    ensures Claims(s) != map[]
  {
    ClaimsAre(s);
    hide Claims;
    if id :| id in s.txs {
      assert Caller(id) in Claims(s);
    } else {
      var chain :| chain in s.polls;
      assert Crediter(chain) in Claims(s);
    }
  }

  lemma AllBlocked(m: Claimants)
    requires AllValid(m) && m != map[] && forall p :: p in m ==> !m[p].Done() && !CanTake(m, p)
    ensures Stuck(m, m.Keys)
  {
    hide AllValid, CanTake, WaitsAmong, Claimant.Done;
    forall p | p in m ensures WaitsAmong(m, p, m.Keys) { BlockedWaits(m, p); }
    assert m.Keys != {};
  }

  lemma BlockedWaits(m: Claimants, p: Party)
    requires AllValid(m) && p in m && !m[p].Done() && !CanTake(m, p)
    ensures WaitsAmong(m, p, m.Keys)
  {
    var q :| q in m && q != p && m[q].Blocks(m[p].plan[m[p].got]);
    assert WaitsFor(m, p, q);
  }

  lemma Moving(t: Tables, s: World, p: Party) returns (step: Step, s': World)
    requires Inv(t, s) && AllValid(Claims(s)) && p in Claims(s) && (Claims(s)[p].Done() || CanTake(Claims(s), p))
    ensures Progresses(step) && Next(s, step, s')
  {
    ClaimsAre(s);
    match p
    case Caller(id) =>
      assert TxOk(s.t, s.keys, s.txs[id]);
      hide Inv, Claims, BatchOk;
      step, s' := CallerMoves(s, id);
    case Crediter(chain) =>
      hide Inv, Claims, TxOk;
      step, s' := CrediterMoves(s, chain);
  }

  lemma CrediterMoves(s: World, chain: Chain) returns (step: Step, s': World)
    requires chain in s.polls && AllValid(Claims(s)) && Crediter(chain) in Claims(s)
    requires Claims(s)[Crediter(chain)] == Claimant(s.polls[chain].plan, s.polls[chain].got)
    requires Claims(s)[Crediter(chain)].Done() || CanTake(Claims(s), Crediter(chain))
    ensures Progresses(step) && Next(s, step, s')
  {
    hide Claims, AllSucceed, Run, CanTake;
    var b := s.polls[chain];
    if b.got == |b.plan| {
      step := CommitPoll(chain);
      s' := s.(t := Run(s.t, Written(chain, b)), polls := s.polls - {chain}, history := s.history + Written(chain, b));
    } else {
      step := Insert(chain);
      s' := s.(polls := if Collides(s.t, b) then s.polls - {chain} else s.polls[chain := b.(got := b.got + 1)]);
    }
  }

  lemma CallerMoves(s: World, id: nat) returns (step: Step, s': World)
    requires id in s.txs && TxOk(s.t, s.keys, s.txs[id]) && AllValid(Claims(s)) && Caller(id) in Claims(s)
    requires Claims(s)[Caller(id)] == Claimant(s.txs[id].plan, s.txs[id].got)
    requires Claims(s)[Caller(id)].Done() || CanTake(Claims(s), Caller(id))
    ensures Progresses(step) && Next(s, step, s')
  {
    var tx := s.txs[id];
    hide Plan, Guard, Check, Effect, Claims, CanTake;
    if !Claims(s)[Caller(id)].Done() && Grade(tx.plan[tx.got].on) <= tx.level {
      step, s' := Take(id), s.(txs := s.txs[id := tx.(got := tx.got + 1)]);
    } else if tx.level < 5 {
      ReachedNext(s, tx);
      step, s' := Look(id), s.(txs := if Passes(s, tx) then s.txs[id := tx.(level := tx.level + 1)] else s.txs - {id});
    } else {
      GradesBounded(tx);
      step := Step.Commit(id);
      s' := s.(t := Apply(s.t, tx.op), txs := s.txs - {id}, history := s.history + [tx.op],
               keys := if tx.request.Some? then s.keys + {tx.request.value} else s.keys);
    }
  }

  lemma GradesBounded(tx: Tx)
    requires tx.level == 5 && tx.got <= |tx.plan| && Reached(tx, tx.level)
    ensures tx.got == |tx.plan|
  {
    if tx.plan != [] { assert Grade(tx.plan[|tx.plan| - 1].on) < 5; }
  }

  lemma ReachedNext(s: World, tx: Tx)
    requires TxOk(s.t, s.keys, tx) && tx.level < 5
    requires tx.got == |tx.plan| || Grade(tx.plan[tx.got].on) > tx.level
    ensures Reached(tx, tx.level + 1)
  {
    PlanOrdered(s.t, tx.op, tx.request);
    hide Plan, Guard;
    if tx.got < |tx.plan| {
      forall i | tx.got <= i < |tx.plan| ensures Grade(tx.plan[i].on) > tx.level {
        assert i == tx.got || Precedes(tx.plan[tx.got].on, tx.plan[i].on);
      }
    }
  }
}
