/**
  A first customer's story, transaction by transaction from a freshly migrated database: provisioned,
  a deposit observed and credited, a withdrawal of all of it requested. Each stage is reachable.
 */
module FirstCustomer {
  import opened Domain
  import opened Totals
  import opened Ledger

  const CUSTOMER: CustomerId := 0

  /** Any distinct numbers do. */
  function AccountNumber(k: AccountKey): AccountId {
    10 + (if k.chain == Base then 0 else 4) + (if k.asset == Eth then 0 else 2) + (if k.kind == Available then 0 else 1)
  }

  function Numbers(): map<AccountKey, AccountId> { map k | k in CustomerKeys(CUSTOMER) :: AccountNumber(k) }

  function Migrated(chain: Chain, start: nat): Tables {
    Tables(map[FloatOf(chain, Eth) := 1, TreasuryOf(chain, Eth) := 2], map[], {(chain, Eth)}, [], [], [],
        map[chain := start], map[], [], map[], [])
  }

  function Provisioned(chain: Chain, start: nat): Tables {
    var t := Migrated(chain, start);
    t.(accounts := t.accounts + Numbers(), addresses := map["0xa" := CUSTOMER])
  }

  function Arrival(chain: Chain, amount: nat): Transfer { Transfer(chain, Eth, "0xa", "0xd", -1, amount, 5, "0xold") }

  function Deposited(chain: Chain, start: nat, amount: nat, state: DepositState): Tables {
    Provisioned(chain, start).(deposits := [Deposit(Arrival(chain, amount), state)], outbox := [DepositPending(0)])
  }

  function Available0(chain: Chain): AccountId { AccountNumber(AvailableOf(CUSTOMER, chain, Eth)) }

  function Funded(chain: Chain, start: nat, amount: int): Tables
    requires amount >= 0
  {
    Deposited(chain, start, amount, Credited).(
      journal := [Entry(DepositCredit(0), 0)],
      postings := [Posting(0, 1, -amount), Posting(0, Available0(chain), amount)],
      outbox := [DepositPending(0), Event.DepositCredited(0)])
  }

  /** One withdrawal of everything, approved on request. */
  function Requested(chain: Chain, start: nat, amount: int): Tables
    requires amount >= 0
  {
    var t := Funded(chain, start, amount);
    t.(journal := t.journal + [Entry(WithdrawalHold("k"), 0)],
       postings := t.postings
           + [Posting(1, Available0(chain), -amount), Posting(1, AccountNumber(HoldOf(CUSTOMER, chain, Eth)), amount)],
       withdrawals := [Withdrawal(CUSTOMER, chain, Eth, amount, "0x01", Approved, 0, None, None, None, false)],
       outbox := t.outbox + [WithdrawalApproved(0)])
  }

  lemma NumbersDistinct()
    ensures Numbers().Keys == CustomerKeys(CUSTOMER)
    ensures forall k, k' :: k in Numbers() && k' in Numbers() && Numbers()[k] == Numbers()[k'] ==> k == k'
    ensures forall k :: k in Numbers() ==> Numbers()[k] >= 10 && k.owner == Some(CUSTOMER)
  {
  }

  lemma HasAccounts(chain: Chain)
    ensures AvailableOf(CUSTOMER, chain, Eth) in Numbers() && HoldOf(CUSTOMER, chain, Eth) in Numbers()
  {
    assert chain.Base? || chain.Arbitrum?;
    var a, h := Available, Hold;
    assert chain in {Base, Arbitrum} && Eth in {Eth, Usdc} && a in {Available, Hold} && h in {Available, Hold};
  }

  lemma ProvisionStep(chain: Chain, start: nat)
    ensures Apply(Migrated(chain, start), CreateCustomer(CUSTOMER, "0xa", Numbers())) == Provisioned(chain, start)
  {
    hide Numbers, CustomerKeys, CheckCustomer;
    NumbersDistinct();
    MigratedAccounts(chain, start);
    NobodyYet(Migrated(chain, start), Numbers());
  }

  lemma MigratedAccounts(chain: Chain, start: nat)
    ensures forall k :: k in Migrated(chain, start).accounts ==> k.owner == None
    ensures forall v :: v in Migrated(chain, start).accounts.Values ==> v < 10
  {
  }

  lemma NobodyYet(t: Tables, ids: map<AccountKey, AccountId>)
    requires t.addresses == map[] && ids.Keys == CustomerKeys(CUSTOMER)
    requires forall k :: k in ids ==> ids[k] >= 10 && k.owner == Some(CUSTOMER)
    requires forall k, k' :: k in ids && k' in ids && ids[k] == ids[k'] ==> k == k'
    requires (forall k :: k in t.accounts ==> k.owner == None) && forall v :: v in t.accounts.Values ==> v < 10
    ensures CheckCustomer(t, CUSTOMER, "0xa", ids) == None
  {
    hide CustomerKeys;
  }

  lemma DepositSteps(chain: Chain, start: nat, amount: nat)
    requires amount > 0
    ensures Apply(Provisioned(chain, start), Observe(Arrival(chain, amount)))
            == Deposited(chain, start, amount, Observed)
    ensures Apply(Deposited(chain, start, amount, Observed), PromoteSafe(chain, 5))
            == Deposited(chain, start, amount, Safe)
    ensures Apply(Deposited(chain, start, amount, Safe), PromoteFinalized(chain, 5))
            == Deposited(chain, start, amount, Finalized)
  {
  }

  lemma CreditStep(chain: Chain, start: nat, amount: int)
    requires amount > 0
    ensures Apply(Deposited(chain, start, amount, Finalized), Credit(0, 0)) == Funded(chain, start, amount)
  {
    HasAccounts(chain);
    var t := Deposited(chain, start, amount, Finalized);
    assert Eligible(t, 0) && Check(t, Credit(0, 0)) == None;
  }

  lemma RequestStep(chain: Chain, start: nat, amount: int)
    requires 0 < amount < UINT256_LIMIT
    ensures Apply(Funded(chain, start, amount),
            RequestWithdrawal(CUSTOMER, chain, Eth, amount, "0x01", 0, amount, "k", 0))
         == Requested(chain, start, amount)
  {
    var t := Funded(chain, start, amount);
    FundedFacts(chain, start, amount);
    hide Balance, Numbers, CustomerKeys, Causes;
    assert CheckRequest(t, CUSTOMER, chain, Eth, amount, 0, "k") == None by { hide Funded; }
  }

  lemma FundedFacts(chain: Chain, start: nat, amount: int)
    requires amount > 0
    ensures var t, a, h :=
            Funded(chain, start, amount), AvailableOf(CUSTOMER, chain, Eth), HoldOf(CUSTOMER, chain, Eth);
            && a in t.accounts && t.accounts[a] == Available0(chain) && Balance(t, t.accounts[a]) == amount
            && h in t.accounts && t.accounts[h] == AccountNumber(h) && WithdrawalHold("k") !in Causes(t.journal)
  {
    HasAccounts(chain);
    var t := Funded(chain, start, amount);
    var a := Available0(chain);
    hide CustomerKeys;
    assert t.postings == [] + [Posting(0, 1, -amount), Posting(0, a, amount)];
    TotalAppend2([], Posting(0, 1, -amount), Posting(0, a, amount), On(a));
  }

  lemma DepositReached(chain: Chain, start: nat, amount: int)
    requires amount > 0
    ensures Reachable(Deposited(chain, start, amount, Observed))
  {
    ProvisionStep(chain, start);
    DepositSteps(chain, start, amount);
    MigratedFresh(chain, start);
    hide Apply, Migrated, Provisioned, Deposited, Reachable;
    ReachedNext(Migrated(chain, start), CreateCustomer(CUSTOMER, "0xa", Numbers()));
    ReachedNext(Provisioned(chain, start), Observe(Arrival(chain, amount)));
  }

  lemma FundedReached(chain: Chain, start: nat, amount: int)
    requires amount > 0
    ensures Reachable(Funded(chain, start, amount))
  {
    DepositReached(chain, start, amount);
    DepositSteps(chain, start, amount);
    CreditStep(chain, start, amount);
    hide Apply, Deposited, Funded, Reachable;
    ReachedNext(Deposited(chain, start, amount, Observed), PromoteSafe(chain, 5));
    ReachedNext(Deposited(chain, start, amount, Safe), PromoteFinalized(chain, 5));
    ReachedNext(Deposited(chain, start, amount, Finalized), Credit(0, 0));
  }

  /** The story is a history of committed transactions from a freshly migrated database. */
  lemma RequestReached(chain: Chain, start: nat, amount: int)
    requires 0 < amount < UINT256_LIMIT
    ensures Reachable(Requested(chain, start, amount))
  {
    FundedReached(chain, start, amount);
    RequestStep(chain, start, amount);
    hide Apply, Funded, Requested, Reachable;
    ReachedNext(Funded(chain, start, amount),
        RequestWithdrawal(CUSTOMER, chain, Eth, amount, "0x01", 0, amount, "k", 0));
  }

  lemma MigratedFresh(chain: Chain, start: nat)
    ensures Reachable(Migrated(chain, start))
  {
    RunEmpty(Migrated(chain, start));
    assert Reaches(Migrated(chain, start), [], Migrated(chain, start));
  }
}
