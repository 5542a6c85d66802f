/**
  Crediting inserts postings in block order, and each insert leaves a foreign-key lock on the
  customer's account. Callers lock accounts by id. Exactly the batches that come down in id among
  the accounts of one chain and asset can meet a caller head on.
 */
module CreditLocks {
  import opened Domain
  import opened Ledger
  import opened LockOrder
  import opened Plans
  import Books

  /** The chain and asset an account is kept in. */
  ghost function HomeOf(t: Tables, a: AccountId): (Chain, Asset) {
    if k :| k in t.accounts && t.accounts[k] == a then (k.chain, k.asset) else (Base, Eth)
  }

  lemma HomeIs(t: Tables, k: AccountKey)
    requires Books.DistinctAccounts(t.accounts) && k in t.accounts
    ensures HomeOf(t, t.accounts[k]) == (k.chain, k.asset)
  {
  }

  predicate IsFloat(t: Tables, a: AccountId) {
    exists k :: k in t.accounts && t.accounts[k] == a && k == FloatOf(k.chain, k.asset)
  }

  // ---- what callers and crediting contend for ----

  /** What every caller's plan has: ordered, exclusive, one chain and asset, no float, no deposit's journal key. */
  ghost predicate CallerLike(t: Tables, plan: seq<Lock>) {
    && Ordered(plan)
    && (forall i :: 0 <= i < |plan| ==> plan[i].mode == Exclusive)
    && (forall i :: 0 <= i < |plan| && plan[i].on.CauseKey? ==> !plan[i].on.cause.DepositCredit?)
    && (forall i :: 0 <= i < |plan| && plan[i].on.AccountRow? ==> !IsFloat(t, plan[i].on.account))
    && (forall i, j :: 0 <= i < |plan| && 0 <= j < |plan| && plan[i].on.AccountRow? && plan[j].on.AccountRow? ==>
          HomeOf(t, plan[i].on.account) == HomeOf(t, plan[j].on.account))
  }

  lemma CallersAreAlike(t: Tables, op: Op, request: Option<string>)
    requires Books.DistinctAccounts(t.accounts) && Locking(op) && Unready(t, op) == None
    ensures CallerLike(t, Plan(t, op, request))
  {
    PlanOrdered(t, op, request);
    PlanAccounts(t, op, request);
    AccountsHome(t, op);
    hide AccountsLocked, Plan, IsFloat, Ordered, Unready, Locking;
  }

  lemma PlanAccounts(t: Tables, op: Op, request: Option<string>)
    requires Locking(op) && Unready(t, op) == None
    ensures forall i :: 0 <= i < |Plan(t, op, request)| && Plan(t, op, request)[i].on.AccountRow? ==>
              Plan(t, op, request)[i].on.account in AccountsLocked(t, op)
    ensures forall i :: 0 <= i < |Plan(t, op, request)| && Plan(t, op, request)[i].on.CauseKey? ==>
              !Plan(t, op, request)[i].on.cause.DepositCredit?
  {
    hide AccountsLocked, Unready;
  }

  lemma AccountsHome(t: Tables, op: Op)
    requires Books.DistinctAccounts(t.accounts) && Unready(t, op) == None
    ensures forall a :: a in AccountsLocked(t, op) ==> !IsFloat(t, a)
    ensures forall a, b :: a in AccountsLocked(t, op) && b in AccountsLocked(t, op) ==> HomeOf(t, a) == HomeOf(t, b)
  {
  }

  lemma CreditedHome(t: Tables, d: DepositId)
    requires Books.DistinctAccounts(t.accounts) && Joined(t, d)
    ensures HomeOf(t, CreditedAccount(t, d)) == (t.deposits[d].transfer.chain, t.deposits[d].transfer.asset)
    ensures IsFloat(t, FloatAccount(t, d)) && !IsFloat(t, CreditedAccount(t, d))
  {
    var x := t.deposits[d].transfer;
    HomeIs(t, AvailableOf(t.addresses[x.address], x.chain, x.asset));
  }

  /** A batch of one chain's deposits. */
  predicate OnChainAll(t: Tables, chain: Chain, ids: seq<DepositId>)
    requires AllJoined(t, ids)
  {
    forall i :: 0 <= i < |ids| ==> t.deposits[ids[i]].transfer.chain == chain
  }

  type Batches = map<Chain, seq<DepositId>>

  /** Callers and crediting polls, at most one poll a chain, holding nothing in conflict. */
  ghost predicate Contending(t: Tables, m: Claimants, batches: Batches) {
    && AllValid(m) && Compatible(m)
    && (forall id :: Caller(id) in m ==> CallerLike(t, m[Caller(id)].plan))
    && (forall chain :: chain in batches ==> AllJoined(t, batches[chain]) && OnChainAll(t, chain, batches[chain]))
    && (forall chain :: Crediter(chain) in m ==>
        chain in batches && m[Crediter(chain)].plan == CreditPlan(t, batches[chain]))
  }

  /** The polls of different chains share no lock but shared ones. */
  lemma ChainsApart(t: Tables, chain: Chain, ids: seq<DepositId>, chain': Chain, ids': seq<DepositId>, k: nat, k': nat)
    requires Books.DistinctAccounts(t.accounts) && chain != chain' && AllJoined(t, ids) && AllJoined(t, ids')
    requires OnChainAll(t, chain, ids) && OnChainAll(t, chain', ids') && k < 3 * |ids| && k' < 3 * |ids'|
    ensures !Conflicts(CreditPlan(t, ids)[k], CreditPlan(t, ids')[k'])
  {
    assert t.deposits[ids[k / 3]].transfer.chain != t.deposits[ids'[k' / 3]].transfer.chain;
  }

  /** Crediting waits only for a caller, and only for a customer's account. */
  lemma CrediterWaits(t: Tables, m: Claimants, batches: Batches, chain: Chain, q: Party)
    requires Books.DistinctAccounts(t.accounts) && Contending(t, m, batches) && WaitsFor(m, Crediter(chain), q)
    ensures q.Caller? && m[Crediter(chain)].got % 3 == 2
    ensures NextLock(m, Crediter(chain)) == AccountRow(CreditedAccount(t, batches[chain][m[Crediter(chain)].got / 3]))
    ensures exists k :: 0 <= k < m[q].got && m[q].plan[k].on == NextLock(m, Crediter(chain))
  {
    var ids, at := batches[chain], m[Crediter(chain)].got;
    var next := m[Crediter(chain)].plan[at];
    var k :| 0 <= k < m[q].got && Conflicts(m[q].plan[k], next);
    match q
    case Crediter(other) => ChainsApart(t, other, batches[other], chain, ids, k, at);
    case Caller(_) =>
      CreditedHome(t, ids[at / 3]);
      hide HomeOf, Compatible;
  }

  /** A caller waits for crediting only over a customer's account the batch has credited already. */
  lemma CallerWaits(t: Tables, m: Claimants, batches: Batches, p: Party, chain: Chain) returns (i: nat)
    requires Books.DistinctAccounts(t.accounts) && Contending(t, m, batches) && p.Caller?
    requires WaitsFor(m, p, Crediter(chain))
    ensures i < |batches[chain]| && 3 * i + 2 < m[Crediter(chain)].got
    ensures NextLock(m, p) == AccountRow(CreditedAccount(t, batches[chain][i]))
  {
    var next := m[p].plan[m[p].got];
    var k :| 0 <= k < m[Crediter(chain)].got && Conflicts(m[Crediter(chain)].plan[k], next);
    i := k / 3;
    CreditedHome(t, batches[chain][i]);
  }

  // ---- which batches can deadlock ----

  /** ids[j] comes after a deposit to a higher account of the same chain and asset, and is the first to its own. */
  predicate Descends(t: Tables, ids: seq<DepositId>, i: nat, j: nat)
    requires AllJoined(t, ids)
  {
    && i < j < |ids|
    && CreditedAccount(t, ids[i]) > CreditedAccount(t, ids[j])
    && t.deposits[ids[i]].transfer.chain == t.deposits[ids[j]].transfer.chain
    && t.deposits[ids[i]].transfer.asset == t.deposits[ids[j]].transfer.asset
    && forall h :: 0 <= h < j ==> CreditedAccount(t, ids[h]) != CreditedAccount(t, ids[j])
  }

  predicate Inverted(t: Tables, ids: seq<DepositId>)
    requires AllJoined(t, ids)
  {
    exists i: nat, j: nat :: i < |ids| && j < |ids| && Descends(t, ids, i, j)
  }

  ghost predicate WaitsAmong(m: Claimants, p: Party, among: set<Party>)
    requires AllValid(m)
  {
    exists q :: q in among && WaitsFor(m, p, q)
  }

  /** Each party of the set waits for another of the set: none of them ever moves again by itself. */
  ghost predicate Stuck(m: Claimants, among: set<Party>)
    requires AllValid(m)
  {
    among != {} && forall p :: p in among ==> p in m && !m[p].Done() && WaitsAmong(m, p, among)
  }

  lemma Blocker(m: Claimants, among: set<Party>, p: Party) returns (q: Party)
    requires AllValid(m) && Stuck(m, among) && p in among
    ensures q in among && p in m && q in m && !m[q].Done() && WaitsFor(m, p, q)
  {
    assert WaitsAmong(m, p, among);
    q :| q in among && WaitsFor(m, p, q);
  }

  /** Waiting for more than account low: a higher account of the same chain and asset, or a key. */
  ghost predicate Beyond(t: Tables, r: Resource, low: AccountId) {
    Grade(r) > 2 || (r.AccountRow? && HomeOf(t, r.account) == HomeOf(t, low) && r.account > low)
  }

  /** A caller holding low waits for something beyond it. */
  lemma HolderWaitsBeyond(t: Tables, c: Claimant, k: nat, low: AccountId)
    requires c.Valid() && !c.Done() && CallerLike(t, c.plan) && k < c.got && c.plan[k].on == AccountRow(low)
    ensures Beyond(t, c.plan[c.got].on, low)
  {
    assert Precedes(c.plan[k].on, c.plan[c.got].on);
  }

  lemma CallerOf(t: Tables, m: Claimants, batches: Batches, p: Party)
    requires Contending(t, m, batches) && p in m && p.Caller?
    ensures CallerLike(t, m[p].plan)
  {
    assert p == Caller(p.id);
  }

  lemma CallerClimbs(t: Tables, m: Claimants, batches: Batches, p: Party, q: Party)
    requires AllValid(m) && Contending(t, m, batches) && WaitsFor(m, p, q) && q.Caller? && !m[q].Done()
    ensures Precedes(NextLock(m, p), NextLock(m, q))
  {
    CallerOf(t, m, batches, q);
    hide Contending;
    assert Ordered(m[q].plan);
    hide CallerLike, Precedes;
    WaitsClimb(m, p, q);
  }

  /** Callers alone are never stuck: their plans climb. */
  lemma CallersAlone(t: Tables, m: Claimants, batches: Batches, among: set<Party>) returns (chain: Chain)
    requires AllValid(m) && Contending(t, m, batches) && Stuck(m, among)
    ensures Crediter(chain) in among
  {
    hide Contending, Precedes, WaitsFor, Claimant.Done, NextLock;
    var top := Highest(m, among);
    assert WaitsAmong(m, top, among);
    var q :| q in among && WaitsFor(m, top, q);
    if q.Caller? { CallerClimbs(t, m, batches, top, q); }
    chain := q.chain;
  }

  /** A caller waited for by one beyond low waits beyond low itself, and for something higher. */
  lemma BeyondClimbs(t: Tables, m: Claimants, low: AccountId, top: Party, q: Party)
    requires AllValid(m) && WaitsFor(m, top, q) && !m[q].Done() && CallerLike(t, m[q].plan)
    requires Beyond(t, NextLock(m, top), low)
    ensures Beyond(t, NextLock(m, q), low) && Precedes(NextLock(m, top), NextLock(m, q))
  {
    var k :| 0 <= k < m[q].got && Conflicts(m[q].plan[k], m[top].plan[m[top].got]);
    WaitsClimb(m, top, q);
    assert m[q].plan[k].on == NextLock(m, top);
    hide HomeOf, IsFloat, Ordered;
  }

  /** The highest caller beyond low waits for the crediting of some chain. */
  lemma TopWaitsForCrediter(t: Tables, m: Claimants, batches: Batches, among: set<Party>, low: AccountId, top: Party)
          returns (q: Party)
    requires AllValid(m) && Contending(t, m, batches) && Stuck(m, among) && top in among
    requires Beyond(t, NextLock(m, top), low)
    requires forall p :: p in among && p.Caller? && Beyond(t, NextLock(m, p), low) ==>
            !Precedes(NextLock(m, top), NextLock(m, p))
    ensures q in among && q.Crediter? && WaitsFor(m, top, q)
  {
    hide Contending, Precedes, WaitsFor, Claimant.Done, NextLock, Beyond, CallerLike;
    assert WaitsAmong(m, top, among);
    q :| q in among && WaitsFor(m, top, q);
    if q.Caller? {
      CallerOf(t, m, batches, q);
      BeyondClimbs(t, m, low, top, q);
    }
  }

  predicate SomeInversion(t: Tables, batches: Batches, chain: Chain) {
    chain in batches && AllJoined(t, batches[chain]) && Inverted(t, batches[chain])
  }

  predicate FirstTo(t: Tables, ids: seq<DepositId>, j: nat, low: AccountId)
    requires AllJoined(t, ids)
  {
    j < |ids| && CreditedAccount(t, ids[j]) == low && forall h :: 0 <= h < j ==> CreditedAccount(t, ids[h]) != low
  }

  /** The batch has come to its first deposit to account low. */
  predicate BlockedAt(t: Tables, m: Claimants, batches: Batches, chain: Chain, j: nat, low: AccountId) {
    && Crediter(chain) in m && m[Crediter(chain)].got == 3 * j + 2
    && chain in batches && AllJoined(t, batches[chain]) && FirstTo(t, batches[chain], j, low)
  }

  /** Whoever is stuck is stuck on an inverted batch. */
  lemma StuckMeansInverted(t: Tables, m: Claimants, batches: Batches, among: set<Party>) returns (chain: Chain)
    requires Books.DistinctAccounts(t.accounts) && AllValid(m) && Contending(t, m, batches) && Stuck(m, among)
    ensures Crediter(chain) in among && SomeInversion(t, batches, chain)
  {
    chain := CallersAlone(t, m, batches, among);
    var b := Crediter(chain);
    hide Contending, Stuck, WaitsFor, Claimant.Done, NextLock, Beyond, BlockedAt, SomeInversion, AllValid,
        Books.DistinctAccounts;
    var r := Blocker(m, among, b);
    var j, low := BlockedCrediting(t, m, batches, chain, r);
    BelowLow(t, m, batches, among, chain, r, j, low);
  }

  lemma BelowLow(t: Tables, m: Claimants, batches: Batches, among: set<Party>, chain: Chain, r: Party, j: nat,
          low: AccountId)
    requires Books.DistinctAccounts(t.accounts) && AllValid(m) && Contending(t, m, batches) && Stuck(m, among)
    requires r in among && r.Caller? && Beyond(t, NextLock(m, r), low)
    requires BlockedAt(t, m, batches, chain, j, low)
    ensures SomeInversion(t, batches, chain)
  {
    hide Contending, Precedes, WaitsFor, NextLock, Beyond, BlockedAt, SomeInversion, WaitsAmong;
    var beyond := set p | p in among && p.Caller? && Beyond(t, NextLock(m, p), low);
    assert r in beyond;
    var top := Highest(m, beyond);
    var q := TopWaitsForCrediter(t, m, batches, among, low, top);
    CallerWaitsBelow(t, m, batches, top, q, chain, j, low);
  }

  /** A blocked batch is at the first deposit to some account low, and the caller it waits for waits beyond low. */
  lemma BlockedCrediting(t: Tables, m: Claimants, batches: Batches, chain: Chain, r: Party)
          returns (j: nat, low: AccountId)
    requires Books.DistinctAccounts(t.accounts) && AllValid(m) && Contending(t, m, batches)
    requires WaitsFor(m, Crediter(chain), r)
    requires !m[r].Done()
    ensures r.Caller? && Beyond(t, NextLock(m, r), low)
    ensures BlockedAt(t, m, batches, chain, j, low)
  {
    CrediterWaits(t, m, batches, chain, r);
    j := m[Crediter(chain)].got / 3;
    low := CreditedAccount(t, batches[chain][j]);
    var k :| 0 <= k < m[r].got && m[r].plan[k].on == NextLock(m, Crediter(chain));
    hide CreditPlan, Beyond;
    HolderWaitsBeyond(t, m[r], k, low);
    FirstToLow(t, m, batches, chain, r, k, j);
  }

  /** The caller beyond low that crediting blocks is blocked by an earlier deposit of the same batch. */
  lemma CallerWaitsBelow(t: Tables, m: Claimants, batches: Batches, top: Party, q: Party, chain: Chain, j: nat,
          low: AccountId)
    requires Books.DistinctAccounts(t.accounts) && AllValid(m) && Contending(t, m, batches)
    requires top.Caller? && q.Crediter? && WaitsFor(m, top, q) && Beyond(t, NextLock(m, top), low)
    requires BlockedAt(t, m, batches, chain, j, low)
    ensures SomeInversion(t, batches, chain)
  {
    var i := CallerWaits(t, m, batches, top, q.chain);
    CreditedHome(t, batches[q.chain][i]);
    CreditedHome(t, batches[chain][j]);
    assert OnChainAll(t, chain, batches[chain]) && OnChainAll(t, q.chain, batches[q.chain]);
    hide Contending, HomeOf, CreditPlan, IsFloat, CreditedAccount;
    assert Descends(t, batches[chain], i, j);
  }

  /** While r holds low, the batch has not credited low yet. */
  lemma FirstToLow(t: Tables, m: Claimants, batches: Batches, chain: Chain, r: Party, k: nat, j: nat)
    requires AllValid(m) && Contending(t, m, batches) && Crediter(chain) in m && r in m && r.Caller? && k < m[r].got
    requires j < |batches[chain]| && m[Crediter(chain)].got == 3 * j + 2
    requires m[r].plan[k].on == AccountRow(CreditedAccount(t, batches[chain][j]))
    ensures FirstTo(t, batches[chain], j, CreditedAccount(t, batches[chain][j]))
  {
    var b := Crediter(chain);
    assert CallerLike(t, m[r].plan) && m[b].plan == CreditPlan(t, batches[chain]);
    assert forall i :: 0 <= i < m[b].got ==> !Conflicts(m[r].plan[k], m[b].plan[i]);
    hide Contending, CreditedAccount;
    forall h | 0 <= h < j ensures CreditedAccount(t, batches[chain][h]) != CreditedAccount(t, batches[chain][j]) {
      assert m[b].plan[3 * h + 2] == Lock(AccountRow(CreditedAccount(t, batches[chain][h])), Shared);
    }
  }

  // ---- exactly the inverted batches ----

  ghost predicate CallersPlan(t: Tables, plan: seq<Lock>) { exists op, request :: PlanOf(t, op, request, plan) }

  predicate PlanOf(t: Tables, op: Op, request: Option<string>, plan: seq<Lock>) {
    Locking(op) && Unready(t, op) == None && plan == Plan(t, op, request)
  }

  /** The crediting of ids and any callers' transactions, holding nothing in conflict, with a set of them stuck. */
  ghost predicate Deadlock(t: Tables, chain: Chain, ids: seq<DepositId>, m: Claimants, among: set<Party>)
    requires AllJoined(t, ids)
  {
    && AllValid(m) && Compatible(m)
    && Crediter(chain) in m && m[Crediter(chain)].plan == CreditPlan(t, ids)
    && (forall p :: p in m ==> p == Crediter(chain) || (p.Caller? && CallersPlan(t, m[p].plan)))
    && Stuck(m, among)
  }

  ghost predicate CanDeadlock(t: Tables, chain: Chain, ids: seq<DepositId>)
    requires AllJoined(t, ids)
  {
    exists m: Claimants, among: set<Party> :: Deadlock(t, chain, ids, m, among)
  }

  /**
    A batch can deadlock with some callers' transactions if and only if a deposit to one account
    comes before the first deposit to a lower account of the same chain and asset.
   */
  lemma CreditOrderDecides(t: Tables, chain: Chain, ids: seq<DepositId>)
    requires Books.DistinctAccounts(t.accounts) && AllJoined(t, ids) && OnChainAll(t, chain, ids)
    ensures CanDeadlock(t, chain, ids) <==> Inverted(t, ids)
  {
    hide AllJoined, Inverted, Deadlock, Descends;
    if CanDeadlock(t, chain, ids) {
      var m: Claimants, among: set<Party> :| Deadlock(t, chain, ids, m, among);
      DeadlockInverts(t, chain, ids, m, among);
    }
    if Inverted(t, ids) {
      var i, j := Inversion(t, ids);
      MeetsHeadOn(t, chain, ids, i, j);
    }
  }

  lemma Inversion(t: Tables, ids: seq<DepositId>) returns (i: nat, j: nat)
    requires AllJoined(t, ids) && Inverted(t, ids)
    ensures i < |ids| && j < |ids| && Descends(t, ids, i, j)
  {
    i, j :| i < |ids| && j < |ids| && Descends(t, ids, i, j);
  }

  lemma DeadlockInverts(t: Tables, chain: Chain, ids: seq<DepositId>, m: Claimants, among: set<Party>)
    requires Books.DistinctAccounts(t.accounts) && AllJoined(t, ids) && OnChainAll(t, chain, ids)
    requires Deadlock(t, chain, ids, m, among)
    ensures Inverted(t, ids)
  {
    hide Contending, Deadlock, Stuck, AllJoined, Inverted, AllValid, Books.DistinctAccounts, OnChainAll;
    DeadlockContends(t, chain, ids, m, among);
    var on := StuckMeansInverted(t, m, map[chain := ids], among);
  }

  lemma DeadlockContends(t: Tables, chain: Chain, ids: seq<DepositId>, m: Claimants, among: set<Party>)
    requires Books.DistinctAccounts(t.accounts) && AllJoined(t, ids) && OnChainAll(t, chain, ids)
    requires Deadlock(t, chain, ids, m, among)
    ensures AllValid(m) && Stuck(m, among) && Contending(t, m, map[chain := ids])
  {
    hide CallerLike, Stuck, Compatible;
    forall id | Caller(id) in m ensures CallerLike(t, m[Caller(id)].plan) {
      assert CallersPlan(t, m[Caller(id)].plan);
      var op, request :| PlanOf(t, op, request, m[Caller(id)].plan);
      CallersAreAlike(t, op, request);
    }
  }

  function OwnerOf(t: Tables, d: DepositId): CustomerId
    requires Joined(t, d)
  {
    t.addresses[t.deposits[d].transfer.address]
  }

  /** The transfer from the customer credited earlier to the one credited later. */
  function Opponent(t: Tables, ids: seq<DepositId>, i: nat, j: nat): Op
    requires i < |ids| && j < |ids| && AllJoined(t, ids)
  {
    var x := t.deposits[ids[j]].transfer;
    Op.InternalTransfer(OwnerOf(t, ids[i]), OwnerOf(t, ids[j]), x.chain, x.asset, 1, "", 0)
  }

  lemma OpponentPlan(t: Tables, ids: seq<DepositId>, i: nat, j: nat)
    requires AllJoined(t, ids) && i < |ids| && Descends(t, ids, i, j)
    ensures i < j < |ids|
    ensures var op, low, high := Opponent(t, ids, i, j), CreditedAccount(t, ids[j]), CreditedAccount(t, ids[i]);
            && Locking(op) && Unready(t, op) == None && CallersPlan(t, Plan(t, op, None)) && |Plan(t, op, None)| >= 2
            && Plan(t, op, None)[0] == Lock(AccountRow(low), Exclusive)
                && Plan(t, op, None)[1] == Lock(AccountRow(high), Exclusive)
  {
    var op := Opponent(t, ids, i, j);
    assert AccountsLocked(t, op) == [CreditedAccount(t, ids[j]), CreditedAccount(t, ids[i])];
    assert PlanOf(t, op, None, Plan(t, op, None));
  }

  lemma MeetsHeadOn(t: Tables, chain: Chain, ids: seq<DepositId>, i: nat, j: nat)
    requires Books.DistinctAccounts(t.accounts) && AllJoined(t, ids) && OnChainAll(t, chain, ids) && i < |ids|
    requires Descends(t, ids, i, j)
    ensures CanDeadlock(t, chain, ids)
  {
    hide Plan, Locking, Unready, CreditPlan, CallersPlan, Opponent, CreditedAccount, CanDeadlock, Compatible, Stuck,
        Descends, OnChainAll;
    hide AllValid, Books.DistinctAccounts;
    OpponentPlan(t, ids, i, j);
    WantedAndHeld(t, ids, i, j);
    var theirs := Plan(t, Opponent(t, ids, i, j), None);
    var low := CreditedAccount(t, ids[j]);
    var m := HeadOn(Crediter(chain), Caller(0), CreditPlan(t, ids), theirs, 3 * j + 2, 3 * i + 2, low);
    DeadlockOf(t, chain, ids, theirs, m, {Crediter(chain), Caller(0)});
  }

  lemma DeadlockOf(t: Tables, chain: Chain, ids: seq<DepositId>, theirs: seq<Lock>, m: Claimants, among: set<Party>)
    requires AllJoined(t, ids) && AllValid(m) && Compatible(m) && Stuck(m, among) && CallersPlan(t, theirs)
    requires Crediter(chain) in m && m[Crediter(chain)].plan == CreditPlan(t, ids)
    requires forall p :: p in m ==> p == Crediter(chain) || (p.Caller? && m[p].plan == theirs)
    ensures CanDeadlock(t, chain, ids)
  {
    hide Compatible, Stuck, CallersPlan, AllJoined, CreditPlan;
    assert Deadlock(t, chain, ids, m, among);
  }

  /** Two plans that want each other's locks. */
  lemma HeadOn(b: Party, r: Party, mine: seq<Lock>, theirs: seq<Lock>, at: nat, held: nat, low: AccountId)
          returns (m: Claimants)
    requires b != r && held < at < |mine| && |theirs| >= 2
    requires theirs[0] == Lock(AccountRow(low), Exclusive) && mine[at].on == theirs[0].on
    requires mine[held].on == theirs[1].on && theirs[1].mode == Exclusive
    requires forall k :: 0 <= k < at ==> mine[k].on != AccountRow(low)
    ensures m.Keys == {b, r} && m[b].plan == mine && m[r].plan == theirs
    ensures AllValid(m) && Compatible(m) && Stuck(m, {b, r})
  {
    m := map[b := Claimant(mine, at), r := Claimant(theirs, 1)];
    assert Conflicts(theirs[0], mine[at]) && Conflicts(mine[held], theirs[1]);
    assert WaitsFor(m, b, r) && WaitsFor(m, r, b);
    assert WaitsAmong(m, b, {b, r}) && WaitsAmong(m, r, {b, r});
  }

  lemma WantedAndHeld(t: Tables, ids: seq<DepositId>, i: nat, j: nat)
    requires Books.DistinctAccounts(t.accounts) && AllJoined(t, ids) && i < |ids| && Descends(t, ids, i, j)
    ensures i < j < |ids|
    ensures CreditPlan(t, ids)[3 * j + 2] == Lock(AccountRow(CreditedAccount(t, ids[j])), Shared)
    ensures CreditPlan(t, ids)[3 * i + 2] == Lock(AccountRow(CreditedAccount(t, ids[i])), Shared)
    ensures forall k :: 0 <= k < 3 * j + 2 ==> CreditPlan(t, ids)[k].on != AccountRow(CreditedAccount(t, ids[j]))
  {
    NothingElseHeld(t, ids, j, CreditedAccount(t, ids[j]));
    hide CreditedAccount, Books.DistinctAccounts;
  }

  /** Up to its first deposit to low, the batch holds no lock on low. */
  lemma NothingElseHeld(t: Tables, ids: seq<DepositId>, j: nat, low: AccountId)
    requires Books.DistinctAccounts(t.accounts) && AllJoined(t, ids) && j < |ids| && low == CreditedAccount(t, ids[j])
    requires forall h :: 0 <= h < j ==> CreditedAccount(t, ids[h]) != low
    ensures forall k :: 0 <= k < 3 * j + 2 ==> CreditPlan(t, ids)[k].on != AccountRow(low)
  {
    CreditedHome(t, ids[j]);
    forall k | 0 <= k < 3 * j + 2 ensures CreditPlan(t, ids)[k].on != AccountRow(low) {
      CreditedHome(t, ids[k / 3]);
    }
  }
}
