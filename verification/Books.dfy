/**
  The books reconcile in every reachable state: derived balances equal what the withdrawals and
  deposits tables say they must be, no customer is overdrawn, and money is conserved.
 */
module Books {
  import opened Domain
  import opened Totals
  import opened Ledger

  // ---- what each balance must equal ----

  function HeldFor(c: CustomerId, chain: Chain, asset: Asset): Withdrawal -> int {
    (w: Withdrawal) => if w.customer == c && w.chain == chain && w.asset == asset && !w.Settled() then w.amount else 0
  }

  function ConfirmedFor(chain: Chain, asset: Asset): Withdrawal -> int {
    (w: Withdrawal) => if w.chain == chain && w.asset == asset && w.status == Confirmed then w.amount else 0
  }

  function CreditedFor(chain: Chain, asset: Asset): Deposit -> int {
    (d: Deposit) =>
        if d.transfer.chain == chain && d.transfer.asset == asset && d.state == Credited then d.transfer.amount else 0
  }

  function InEntry(e: nat): Posting -> int { (p: Posting) => if p.entry == e then p.amount else 0 }

  /** Every account id stands for one (owner, chain, asset, kind). */
  predicate DistinctAccounts(accounts: map<AccountKey, AccountId>) {
    forall k, k' :: k in accounts && k' in accounts && accounts[k] == accounts[k'] ==> k == k'
  }

  /** Foreign keys: postings refer to accounts and entries that exist. */
  predicate PostingsKnown(t: Tables) {
    forall i :: 0 <= i < |t.postings| ==>
            t.postings[i].account in t.accounts.Values && t.postings[i].entry < |t.journal|
  }

  predicate HoldersKnown(t: Tables) {
    forall w :: 0 <= w < |t.withdrawals| ==>
            HoldOf(t.withdrawals[w].customer, t.withdrawals[w].chain, t.withdrawals[w].asset) in t.accounts
  }

  predicate Referenced(t: Tables) { DistinctAccounts(t.accounts) && PostingsKnown(t) && HoldersKnown(t) }

  predicate HoldReconciles(t: Tables, c: CustomerId, chain: Chain, asset: Asset) {
    HoldOf(c, chain, asset) in t.accounts ==>
      Balance(t, t.accounts[HoldOf(c, chain, asset)]) == Total(t.withdrawals, HeldFor(c, chain, asset))
  }

  predicate PlatformReconciles(t: Tables, chain: Chain, asset: Asset) {
    && (TreasuryOf(chain, asset) in t.accounts ==>
          Balance(t, t.accounts[TreasuryOf(chain, asset)]) == Total(t.withdrawals, ConfirmedFor(chain, asset)))
    && (FloatOf(chain, asset) in t.accounts ==>
          Balance(t, t.accounts[FloatOf(chain, asset)]) == -Total(t.deposits, CreditedFor(chain, asset)))
  }

  predicate Covered(t: Tables, c: CustomerId, chain: Chain, asset: Asset) {
    AvailableOf(c, chain, asset) in t.accounts ==> Balance(t, t.accounts[AvailableOf(c, chain, asset)]) >= 0
  }

  predicate EntryBalanced(t: Tables, e: nat) { Total(t.postings, InEntry(e)) == 0 }

  ghost predicate Reconciled(t: Tables) {
    && Referenced(t)
    && (forall c, chain, asset :: HoldReconciles(t, c, chain, asset) && Covered(t, c, chain, asset))
    && (forall chain, asset :: PlatformReconciles(t, chain, asset))
    && (forall e :: EntryBalanced(t, e))
  }

  // ---- one transaction ----

  /** A transaction that posts moves amount from one account to another; any other leaves every balance. */
  lemma BalanceStep(t: Tables, op: Op, a: AccountId)
    requires Check(t, op) == None
    ensures Balance(Effect(t, op), a) == Balance(t, a) + Moved(t, op, a)
  {
    PostingsStep(t, op);
    hide Check, Effect, Legs;
    if Legs(t, op).Some? {
      var (from, to, amount) := Legs(t, op).value;
      TotalAppend2(t.postings, Posting(|t.journal|, t.accounts[from], -amount),
          Posting(|t.journal|, t.accounts[to], amount), On(a));
    }
  }

  /** The accounts a transaction debits and credits, and the amount, if it posts at all. */
  function Legs(t: Tables, op: Op): Option<(AccountKey, AccountKey, int)>
    requires Check(t, op) == None
  {
    match op
    case InternalTransfer(source, target, chain, asset, amount, _, _) =>
      Some((AvailableOf(source, chain, asset), AvailableOf(target, chain, asset), amount))
    case RequestWithdrawal(c, chain, asset, amount, _, _, _, _, _) =>
            Some((AvailableOf(c, chain, asset), HoldOf(c, chain, asset), amount))
    case Settle(w, success, _) =>
      var row := t.withdrawals[w];
      Some((HoldOf(row.customer, row.chain, row.asset), Counterpart(row, success), row.amount))
    case Credit(d, _) =>
      var x := t.deposits[d].transfer;
      Some((FloatOf(x.chain, x.asset), AvailableOf(t.addresses[x.address], x.chain, x.asset), x.amount))
    case _ => None
  }

  function Moved(t: Tables, op: Op, a: AccountId): int
    requires Check(t, op) == None
  {
    match Legs(t, op)
    case None => 0
    case Some((from, to, amount)) =>
      (if t.accounts[to] == a then amount else 0) - (if t.accounts[from] == a then amount else 0)
  }

  /** The two postings a transaction appends, if it posts. */
  lemma PostingsStep(t: Tables, op: Op)
    requires Check(t, op) == None
    ensures match Legs(t, op)
            case None => Effect(t, op).postings == t.postings && Effect(t, op).journal == t.journal
            case Some((from, to, amount)) =>
              && from in t.accounts && to in t.accounts
              && |Effect(t, op).journal| == |t.journal| + 1
              && Effect(t, op).postings == t.postings
                   + [Posting(|t.journal|, t.accounts[from], -amount), Posting(|t.journal|, t.accounts[to], amount)]
  {
  }

  /** Only provisioning a customer touches accounts, and it only adds fresh ones. */
  lemma AccountsStep(t: Tables, op: Op)
    requires Check(t, op) == None
    ensures Effect(t, op).accounts == if op.CreateCustomer? then t.accounts + op.ids else t.accounts
    ensures forall k :: k in t.accounts ==> k in Effect(t, op).accounts && Effect(t, op).accounts[k] == t.accounts[k]
    ensures op.CreateCustomer? ==> op.ids.Keys == CustomerKeys(op.customer)
    ensures op.CreateCustomer? ==> forall k :: k in op.ids ==> k !in t.accounts && op.ids[k] !in t.accounts.Values
    ensures op.CreateCustomer? ==> forall k, k' :: k in op.ids && k' in op.ids && op.ids[k] == op.ids[k'] ==> k == k'
  {
  }

  datatype RowChange = Same | Added(added: Withdrawal) | Changed(at: nat, row: Withdrawal)

  /** What a transaction does to the withdrawals table: nothing, one new row, or one row's progress. */
  lemma WithdrawalsStep(t: Tables, op: Op) returns (c: RowChange)
    requires Check(t, op) == None
    ensures match c
            case Same => Effect(t, op).withdrawals == t.withdrawals && !op.Settle? && !op.RequestWithdrawal?
            case Added(row) =>
              && op.RequestWithdrawal? && Effect(t, op).withdrawals == t.withdrawals + [row]
              && row.customer == op.customer && row.chain == op.chain
              && row.asset == op.asset && row.amount == op.amount
              && !row.Claimed()
            case Changed(w, row) =>
              && !op.RequestWithdrawal? && w < |t.withdrawals| && Effect(t, op).withdrawals == t.withdrawals[w := row]
              && row.customer == t.withdrawals[w].customer && row.chain == t.withdrawals[w].chain
              && row.asset == t.withdrawals[w].asset && row.amount == t.withdrawals[w].amount
              && (if op.Settle?
                  then
                    && op.w == w && t.withdrawals[w].status == Broadcast
                    && row.status == (if op.success then Confirmed else Failed)
                  else
                    && row.Settled() == t.withdrawals[w].Settled()
                    && (row.status == Confirmed <==> t.withdrawals[w].status == Confirmed))
  {
    var t' := Effect(t, op);
    c := match op
      case RequestWithdrawal(_, _, _, _, _, _, _, _, _) => Added(t'.withdrawals[|t.withdrawals|])
      case Approve(w, _) => Changed(w, t'.withdrawals[w])
      case Claim(_, w) => Changed(w, t'.withdrawals[w])
      case MarkBroadcast(w) => Changed(w, t'.withdrawals[w])
      case Settle(w, _, _) => Changed(w, t'.withdrawals[w])
      case AlertStuck(w) => Changed(w, t'.withdrawals[w])
      case _ => Same;
  }

  lemma ReferencedStep(t: Tables, op: Op)
    requires Referenced(t) && Check(t, op) == None
    ensures Referenced(Effect(t, op))
  {
    DistinctStep(t, op);
    PostingsKnownStep(t, op);
    AccountsStep(t, op);
    var change := WithdrawalsStep(t, op);
    if op.RequestWithdrawal? { RequestedFromKnownAccount(t, op); }
    hide Check, Effect;
  }

  lemma DistinctStep(t: Tables, op: Op)
    requires DistinctAccounts(t.accounts) && Check(t, op) == None
    ensures DistinctAccounts(Effect(t, op).accounts)
  {
    AccountsStep(t, op);
    var after := Effect(t, op).accounts;
    hide Check, Effect;
    forall k, k' | k in after && k' in after && after[k] == after[k'] ensures k == k' {
      assert k in t.accounts ==> t.accounts[k] in t.accounts.Values;
      assert k' in t.accounts ==> t.accounts[k'] in t.accounts.Values;
    }
  }

  lemma PostingsKnownStep(t: Tables, op: Op)
    requires PostingsKnown(t) && Check(t, op) == None
    ensures PostingsKnown(Effect(t, op))
  {
    AccountsStep(t, op);
    PostingsStep(t, op);
    var t' := Effect(t, op);
    hide Check, Effect;
    forall i | 0 <= i < |t'.postings|
      ensures t'.postings[i].account in t'.accounts.Values && t'.postings[i].entry < |t'.journal|
    {
      if i < |t.postings| {
        assert t'.postings[i] == t.postings[i];
        var k :| k in t.accounts && t.accounts[k] == t.postings[i].account;
        assert t'.accounts[k] == t.postings[i].account;
      } else {
        var (from, to, amount) := Legs(t, op).value;
        assert t'.accounts[from] == t.accounts[from] && t'.accounts[to] == t.accounts[to];
      }
    }
  }

  lemma RequestedFromKnownAccount(t: Tables, op: Op)
    requires Check(t, op) == None && op.RequestWithdrawal?
    ensures HoldOf(op.customer, op.chain, op.asset) in t.accounts
  {
  }

  /** A key provisioned by this very transaction has no posting yet. */
  lemma FreshAccountEmpty(t: Tables, op: Op, k: AccountKey)
    requires Referenced(t) && Check(t, op) == None
    requires k in Effect(t, op).accounts && k !in t.accounts
    ensures op.CreateCustomer? && k in op.ids && k.owner == Some(op.customer)
    ensures Balance(Effect(t, op), Effect(t, op).accounts[k]) == 0
  {
    assert op.CreateCustomer? && k in CustomerKeys(op.customer);
    TotalZero(t.postings, On(op.ids[k]));
  }

  lemma HoldStep(t: Tables, op: Op, c: CustomerId, chain: Chain, asset: Asset)
    requires Referenced(t) && HoldReconciles(t, c, chain, asset) && Check(t, op) == None
    ensures HoldReconciles(Effect(t, op), c, chain, asset)
  {
    var k := HoldOf(c, chain, asset);
    AccountsStep(t, op);
    if k in t.accounts {
      HeldStep(t, op, c, chain, asset);
    } else if k in Effect(t, op).accounts {
      FreshHoldStep(t, op, c, chain, asset);
    }
    hide Check, Effect;
  }

  lemma HeldStep(t: Tables, op: Op, c: CustomerId, chain: Chain, asset: Asset)
    requires DistinctAccounts(t.accounts) && Check(t, op) == None && HoldOf(c, chain, asset) in t.accounts
    requires Balance(t, t.accounts[HoldOf(c, chain, asset)]) == Total(t.withdrawals, HeldFor(c, chain, asset))
    ensures Balance(Effect(t, op), t.accounts[HoldOf(c, chain, asset)])
            == Total(Effect(t, op).withdrawals, HeldFor(c, chain, asset))
  {
    BalanceStep(t, op, t.accounts[HoldOf(c, chain, asset)]);
    HeldMoved(t, op, c, chain, asset);
    var change := WithdrawalsStep(t, op);
    hide Check, Effect, Moved;
    match change
    case Same =>
    case Added(row) => TotalAppend(t.withdrawals, row, HeldFor(c, chain, asset));
    case Changed(w, row) => TotalUpdate(t.withdrawals, w, row, HeldFor(c, chain, asset));
  }

  /** What a transaction moves on a hold account: a request fills it, a settlement empties it. */
  lemma HeldMoved(t: Tables, op: Op, c: CustomerId, chain: Chain, asset: Asset)
    requires DistinctAccounts(t.accounts) && Check(t, op) == None && HoldOf(c, chain, asset) in t.accounts
    ensures Moved(t, op, t.accounts[HoldOf(c, chain, asset)])
         == if op.RequestWithdrawal? && op.customer == c && op.chain == chain && op.asset == asset then op.amount
            else if op.Settle? then -HeldFor(c, chain, asset)(t.withdrawals[op.w])
            else 0
  {
    PostingsStep(t, op);
    assert op.Settle? ==> op.w < |t.withdrawals| && t.withdrawals[op.w].status == Broadcast;
    hide Check, Effect;
  }

  /** A hold account just provisioned: no posting on it, and no withdrawal of its customer yet. */
  lemma FreshHoldStep(t: Tables, op: Op, c: CustomerId, chain: Chain, asset: Asset)
    requires Referenced(t) && Check(t, op) == None
    requires HoldOf(c, chain, asset) !in t.accounts && HoldOf(c, chain, asset) in Effect(t, op).accounts
    ensures Balance(Effect(t, op), Effect(t, op).accounts[HoldOf(c, chain, asset)])
            == Total(Effect(t, op).withdrawals, HeldFor(c, chain, asset))
  {
    FreshAccountEmpty(t, op, HoldOf(c, chain, asset));
    var change := WithdrawalsStep(t, op);
    hide Check, Effect;
    TotalZero(t.withdrawals, HeldFor(c, chain, asset));
  }

  lemma PlatformStep(t: Tables, op: Op, chain: Chain, asset: Asset)
    requires Referenced(t) && PlatformReconciles(t, chain, asset) && Check(t, op) == None
    ensures PlatformReconciles(Effect(t, op), chain, asset)
  {
    AccountsStep(t, op);
    if TreasuryOf(chain, asset) in t.accounts { TreasuryStep(t, op, chain, asset); }
    if FloatOf(chain, asset) in t.accounts { FloatStep(t, op, chain, asset); }
    hide Check, Effect;
    if op.CreateCustomer? {
      assert TreasuryOf(chain, asset) !in CustomerKeys(op.customer)
          && FloatOf(chain, asset) !in CustomerKeys(op.customer);
    }
  }

  lemma TreasuryStep(t: Tables, op: Op, chain: Chain, asset: Asset)
    requires DistinctAccounts(t.accounts) && Check(t, op) == None && TreasuryOf(chain, asset) in t.accounts
    requires Balance(t, t.accounts[TreasuryOf(chain, asset)]) == Total(t.withdrawals, ConfirmedFor(chain, asset))
    ensures Balance(Effect(t, op), t.accounts[TreasuryOf(chain, asset)])
            == Total(Effect(t, op).withdrawals, ConfirmedFor(chain, asset))
  {
    hide Check, Effect;
    var f := ConfirmedFor(chain, asset);
    BalanceStep(t, op, t.accounts[TreasuryOf(chain, asset)]);
    PostingsStep(t, op);
    var change := WithdrawalsStep(t, op);
    match change
    case Same =>
    case Added(row) => TotalAppend(t.withdrawals, row, f);
    case Changed(w, row) => TotalUpdate(t.withdrawals, w, row, f);
  }

  /** What crediting adds to the credited total: nothing, unless this transaction credits. */
  lemma CreditedStep(t: Tables, op: Op, chain: Chain, asset: Asset)
    requires Check(t, op) == None
    ensures Total(Effect(t, op).deposits, CreditedFor(chain, asset)) == Total(t.deposits, CreditedFor(chain, asset))
         + if op.Credit? then CreditedFor(chain, asset)(t.deposits[op.d].(state := Credited)) else 0
  {
    hide Check, Effect;
    var t', f := Effect(t, op), CreditedFor(chain, asset);
    DepositsStep(t, op);
    match op
    case Observe(x) => TotalAppend(t.deposits, Deposit(x, Observed), f);
    case PromoteSafe(_, _) => TotalSame(t.deposits, t'.deposits, f, f);
    case PromoteFinalized(_, _) => TotalSame(t.deposits, t'.deposits, f, f);
    case Orphan(d) => TotalUpdate(t.deposits, d, t'.deposits[d], f);
    case Credit(d, _) => TotalUpdate(t.deposits, d, t'.deposits[d], f);
    case _ =>
  }

  /** What a transaction does to the deposits table. */
  lemma DepositsStep(t: Tables, op: Op)
    requires Check(t, op) == None
    ensures op.Observe? ==> Effect(t, op).deposits == t.deposits + [Deposit(op.transfer, Observed)]
    ensures op.Orphan? ==>
              && op.d < |t.deposits| && t.deposits[op.d].state != Credited
              && Effect(t, op).deposits == t.deposits[op.d := t.deposits[op.d].(state := Orphaned)]
    ensures op.Credit? ==>
              && op.d < |t.deposits| && t.deposits[op.d].state == Finalized
              && Effect(t, op).deposits == t.deposits[op.d := t.deposits[op.d].(state := Credited)]
    ensures op.PromoteSafe? || op.PromoteFinalized? ==>
              && |Effect(t, op).deposits| == |t.deposits|
              && forall d :: 0 <= d < |t.deposits| ==>
                   && Effect(t, op).deposits[d].transfer == t.deposits[d].transfer
                   && (Effect(t, op).deposits[d].state == Credited <==> t.deposits[d].state == Credited)
    ensures !op.Observe? && !op.Orphan? && !op.Credit? && !op.PromoteSafe? && !op.PromoteFinalized? ==>
              Effect(t, op).deposits == t.deposits
  {
  }

  lemma FloatStep(t: Tables, op: Op, chain: Chain, asset: Asset)
    requires DistinctAccounts(t.accounts) && Check(t, op) == None && FloatOf(chain, asset) in t.accounts
    requires Balance(t, t.accounts[FloatOf(chain, asset)]) == -Total(t.deposits, CreditedFor(chain, asset))
    ensures Balance(Effect(t, op), t.accounts[FloatOf(chain, asset)])
            == -Total(Effect(t, op).deposits, CreditedFor(chain, asset))
  {
    BalanceStep(t, op, t.accounts[FloatOf(chain, asset)]);
    CreditedStep(t, op, chain, asset);
    PostingsStep(t, op);
    assert op.Credit? ==> op.d < |t.deposits|;
    hide Check, Effect;
  }

  lemma CoveredStep(t: Tables, op: Op, c: CustomerId, chain: Chain, asset: Asset)
    requires Referenced(t) && Covered(t, c, chain, asset) && Check(t, op) == None
    ensures Covered(Effect(t, op), c, chain, asset)
  {
    hide Check, Effect, Legs, PostingsKnown, HoldersKnown;
    var k := AvailableOf(c, chain, asset);
    AccountsStep(t, op);
    if k in t.accounts {
      BalanceStep(t, op, t.accounts[k]);
      if Legs(t, op).Some? { DebitCovered(t, op); }
    } else if k in Effect(t, op).accounts {
      FreshAccountEmpty(t, op, k);
    }
  }

  /** Nothing is debited from a customer's available account that is not on it. */
  lemma DebitCovered(t: Tables, op: Op)
    requires Check(t, op) == None && Legs(t, op).Some?
    ensures var (from, to, amount) := Legs(t, op).value;
            && from in t.accounts && to in t.accounts && amount >= 0
            && (from.owner.Some? && from.kind == Available ==> Balance(t, t.accounts[from]) >= amount)
  {
  }

  lemma EntryStep(t: Tables, op: Op, e: nat)
    requires Referenced(t) && EntryBalanced(t, e) && Check(t, op) == None
    ensures EntryBalanced(Effect(t, op), e)
  {
    var t' := Effect(t, op);
    if t'.postings != t.postings {
      var n := |t.postings|;
      assert t'.postings == t.postings + [t'.postings[n], t'.postings[n + 1]];
      TotalAppend2(t.postings, t'.postings[n], t'.postings[n + 1], InEntry(e));
    }
  }

  lemma ReconciledStep(t: Tables, op: Op)
    requires Reconciled(t)
    ensures Reconciled(Apply(t, op))
  {
    if Check(t, op) == None {
      var t' := Effect(t, op);
      ReferencedStep(t, op);
      forall c, chain, asset ensures HoldReconciles(t', c, chain, asset) && Covered(t', c, chain, asset) {
        assert HoldReconciles(t, c, chain, asset) && Covered(t, c, chain, asset);
        HoldStep(t, op, c, chain, asset);
        CoveredStep(t, op, c, chain, asset);
      }
      forall chain, asset ensures PlatformReconciles(t', chain, asset) { PlatformStep(t, op, chain, asset); }
      forall e ensures EntryBalanced(t', e) { assert EntryBalanced(t, e); EntryStep(t, op, e); }
    }
  }

  // ---- every history ----

  /** Whatever transactions are attempted, in whatever order, the books reconcile. */
  lemma {:induction false} AlwaysReconciled(t: Tables, ops: seq<Op>)
    requires Fresh(t)
    ensures Reconciled(Run(t, ops))
  {
    if ops == [] {
      assert forall k :: k in t.accounts ==> k.owner == None;
    } else {
      AlwaysReconciled(t, ops[..|ops| - 1]);
      ReconciledStep(Run(t, ops[..|ops| - 1]), ops[|ops| - 1]);
    }
  }

  // ---- conservation ----

  ghost predicate OfPair(t: Tables, a: AccountId, chain: Chain, asset: Asset, customers: bool) {
    exists k :: k in t.accounts && t.accounts[k] == a && k.chain == chain && k.asset == asset
        && (customers ==> k.owner.Some?)
  }

  /** What the platform owes its customers in one asset on one chain: all available and held money. */
  ghost function Owed(t: Tables, chain: Chain, asset: Asset): int {
    Total(t.postings, PairWeight(t, chain, asset, true))
  }

  ghost function PairWeight(t: Tables, chain: Chain, asset: Asset, customers: bool): Posting -> int {
    (p: Posting) => if OfPair(t, p.account, chain, asset, customers) then p.amount else 0
  }

  /** Both legs of every posting pair are on one chain and in one asset, so each pair's postings sum to zero. */
  lemma PairStep(t: Tables, op: Op, chain: Chain, asset: Asset)
    requires Referenced(t) && Check(t, op) == None
    requires Total(t.postings, PairWeight(t, chain, asset, false)) == 0
    ensures Total(Effect(t, op).postings, PairWeight(Effect(t, op), chain, asset, false)) == 0
  {
    hide Check, Effect, Legs, PairWeight, DistinctAccounts, PostingsKnown, HoldersKnown;
    DistinctStep(t, op);
    AccountsStep(t, op);
    PostingsStep(t, op);
    PairWeightStays(t, Effect(t, op), chain, asset);
    if Legs(t, op).Some? {
      LegsSamePair(t, op);
      PairPosted(t, Effect(t, op), Legs(t, op).value, chain, asset);
    }
  }

  lemma PairPosted(t: Tables, t': Tables, legs: (AccountKey, AccountKey, int), chain: Chain, asset: Asset)
    requires DistinctAccounts(t'.accounts) && legs.0 in t.accounts && legs.1 in t.accounts
    requires legs.0 in t'.accounts && t'.accounts[legs.0] == t.accounts[legs.0] && legs.1 in t'.accounts
    requires t'.accounts[legs.1] == t.accounts[legs.1]
    requires legs.0.chain == legs.1.chain && legs.0.asset == legs.1.asset
    requires t'.postings
            == t.postings
            + [Posting(|t.journal|, t.accounts[legs.0], -legs.2), Posting(|t.journal|, t.accounts[legs.1], legs.2)]
    ensures Total(t'.postings, PairWeight(t', chain, asset, false))
            == Total(t.postings, PairWeight(t', chain, asset, false))
  {
    TotalAppend2(t.postings, Posting(|t.journal|, t.accounts[legs.0], -legs.2),
        Posting(|t.journal|, t.accounts[legs.1], legs.2),
        PairWeight(t', chain, asset, false));
  }

  /** Provisioning accounts does not change which pair an existing posting belongs to. */
  lemma PairWeightStays(t: Tables, t': Tables, chain: Chain, asset: Asset)
    requires PostingsKnown(t) && DistinctAccounts(t'.accounts)
    requires forall k :: k in t.accounts ==> k in t'.accounts && t'.accounts[k] == t.accounts[k]
    ensures Total(t.postings, PairWeight(t, chain, asset, false))
            == Total(t.postings, PairWeight(t', chain, asset, false))
  {
    var f, g := PairWeight(t, chain, asset, false), PairWeight(t', chain, asset, false);
    forall i | 0 <= i < |t.postings| ensures f(t.postings[i]) == g(t.postings[i]) {
      assert t.postings[i].account in t.accounts.Values;
      var k :| k in t.accounts && t.accounts[k] == t.postings[i].account;
      assert t'.accounts[k] == t.postings[i].account;
    }
    TotalSame(t.postings, t.postings, f, g);
  }

  lemma LegsSamePair(t: Tables, op: Op)
    requires Check(t, op) == None && Legs(t, op).Some?
    ensures Legs(t, op).value.0.chain == Legs(t, op).value.1.chain
    ensures Legs(t, op).value.0.asset == Legs(t, op).value.1.asset
  {
  }

  lemma {:induction false} PairsBalanced(t: Tables, ops: seq<Op>, chain: Chain, asset: Asset)
    requires Fresh(t)
    ensures Total(Run(t, ops).postings, PairWeight(Run(t, ops), chain, asset, false)) == 0
  {
    if ops != [] {
      PairsBalanced(t, ops[..|ops| - 1], chain, asset);
      AlwaysReconciled(t, ops[..|ops| - 1]);
      var s := Run(t, ops[..|ops| - 1]);
      if Check(s, ops[|ops| - 1]) == None { PairStep(s, ops[|ops| - 1], chain, asset); }
    }
  }

  /**
    Conservation: on each chain and in each asset, customers are owed exactly the deposits
    credited to them less the withdrawals confirmed on chain.
   */
  lemma Conservation(t: Tables, ops: seq<Op>, chain: Chain, asset: Asset)
    requires Fresh(t)
    requires TreasuryOf(chain, asset) in t.accounts && FloatOf(chain, asset) in t.accounts
    ensures Owed(Run(t, ops), chain, asset)
         == Total(Run(t, ops).deposits, CreditedFor(chain, asset))
             - Total(Run(t, ops).withdrawals, ConfirmedFor(chain, asset))
  {
    var s := Run(t, ops);
    AlwaysReconciled(t, ops);
    PairsBalanced(t, ops, chain, asset);
    AccountsStay(t, ops);
    assert PlatformReconciles(s, chain, asset);
    var treasury, float := s.accounts[TreasuryOf(chain, asset)], s.accounts[FloatOf(chain, asset)];
    var platform := (p: Posting) => On(treasury)(p) + On(float)(p);
    forall i | 0 <= i < |s.postings|
      ensures PairWeight(s, chain, asset, false)(s.postings[i])
              == PairWeight(s, chain, asset, true)(s.postings[i]) + platform(s.postings[i])
    {
      PairSplit(s, chain, asset, s.postings[i]);
    }
    TotalPlus(s.postings, PairWeight(s, chain, asset, true), platform, PairWeight(s, chain, asset, false));
    TotalPlus(s.postings, On(treasury), On(float), platform);
  }

  lemma PairSplit(t: Tables, chain: Chain, asset: Asset, p: Posting)
    requires Referenced(t) && p.account in t.accounts.Values
    requires TreasuryOf(chain, asset) in t.accounts && FloatOf(chain, asset) in t.accounts
    requires forall k :: k in t.accounts && k.owner == None ==> k.kind != Hold
    ensures PairWeight(t, chain, asset, false)(p) == PairWeight(t, chain, asset, true)(p)
         + On(t.accounts[TreasuryOf(chain, asset)])(p) + On(t.accounts[FloatOf(chain, asset)])(p)
  {
    var k :| k in t.accounts && t.accounts[k] == p.account;
    if k.chain == chain && k.asset == asset && k.owner == None {
      assert k == TreasuryOf(chain, asset) || k == FloatOf(chain, asset);
    }
  }

  /** Accounts are never removed, and platform accounts never added. */
  lemma {:induction false} AccountsStay(t: Tables, ops: seq<Op>)
    requires Fresh(t)
    ensures forall k :: k in t.accounts ==> k in Run(t, ops).accounts
    ensures forall k :: k in Run(t, ops).accounts && k.owner == None ==> k in t.accounts
  {
    if ops != [] {
      var s, op := Run(t, ops[..|ops| - 1]), ops[|ops| - 1];
      AccountsStay(t, ops[..|ops| - 1]);
      if Check(s, op) == None { AccountsStep(s, op); }
      hide Check, Effect;
    }
  }
}
