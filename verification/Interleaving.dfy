/**
  Concurrent database transactions, statement by statement: lock, look, write, commit, with every
  other transaction free to act in between. The row locks and unique keys make every interleaving
  equal to running the committed transactions one after the other in commit order. A poll promotes,
  selects and credits in one such transaction; observing and provisioning commit in one step here.
 */
module Interleaving {
  import opened Domain
  import opened Ledger
  import opened LockOrder
  import opened Plans
  import opened Polls
  import opened Query
  import opened Repositories
  import Records

  // ---- what each statement checks ----

  /**
    The checks after each lock: 1 the withdrawal row, 2 the nonce and attempt rows, 3 the accounts
    and the balance, 4 the journal key.
   */
  function Guard(t: Tables, op: Op, level: nat): Option<Error>
    requires Unready(t, op) == None
  {
    match level
    case 1 => RowGuard(t, op)
    case 2 => AttemptGuard(t, op)
    case 3 => BalanceGuard(t, op)
    case 4 =>
      if Records.Journaled(op).Some? && Records.Journaled(op).value in Causes(t.journal) then Some(DuplicateCause)
      else None
    case _ => None
  }

  function RowGuard(t: Tables, op: Op): Option<Error>
    requires Unready(t, op) == None
  {
    match op
    case Approve(w, _) => if t.withdrawals[w].status != AwaitingApproval then Some(NotAwaitingApproval) else None
    case Claim(_, w) => if t.withdrawals[w].status != Approved then Some(NotApproved) else None
    case RecordSigned(w, _, _) => if t.withdrawals[w].status != Signed then Some(NotSigned) else None
    case MarkBroadcast(w) => if t.withdrawals[w].status != Signed then Some(NotSigned) else None
    case Settle(w, _, _) => if t.withdrawals[w].status != Broadcast then Some(NotBroadcast) else None
    case AlertStuck(w) => if t.withdrawals[w].stuckAlerted then Some(AlreadyAlerted) else None
    case _ => None
  }

  function AttemptGuard(t: Tables, op: Op): Option<Error> {
    match op
    case Claim(chain, w) =>
            if chain !in t.nextNonce then Some(NoNonceState) else if w in t.attempts then Some(DuplicateAttempt)
            else None
    case RecordSigned(w, _, _) => if w !in t.attempts then Some(NoAttempt) else None
    case MarkBroadcast(w) =>
      if w !in t.attempts then Some(NoAttempt)
      else if t.attempts[w].txHash == None || t.attempts[w].txHash.value == "" then Some(NoSignedTx)
      else None
    case _ => None
  }

  function BalanceGuard(t: Tables, op: Op): Option<Error>
    requires Unready(t, op) == None
  {
    match op
    case InternalTransfer(source, _, chain, asset, amount, _, _) =>
      if Balance(t, t.accounts[AvailableOf(source, chain, asset)]) < amount then Some(InsufficientBalance) else None
    case RequestWithdrawal(c, chain, asset, amount, _, fee, _, _, _) =>
      if Balance(t, t.accounts[AvailableOf(c, chain, asset)]) < amount then Some(InsufficientBalance)
      else if Balance(t, t.accounts[AvailableOf(c, chain, asset)]) - amount < fee then Some(InsufficientBalanceForFee)
      else None
    case Settle(w, success, _) =>
      var row := t.withdrawals[w];
      if HoldOf(row.customer, row.chain, row.asset) !in t.accounts then Some(NoHoldAccount)
      else if Counterpart(row, success) !in t.accounts
          then Some(if success then NoTreasuryAccount else NoAvailableAccount)
      else None
    case _ => None
  }

  predicate Passed(t: Tables, op: Op, level: nat) {
    Unready(t, op) == None && forall k: nat :: 1 <= k <= level ==> Guard(t, op, k) == None
  }

  /** The statements' checks together are the transaction's check, and the first to fail gives its error. */
  lemma GuardsAreCheck(t: Tables, op: Op, level: nat)
    requires Locking(op)
    ensures Unready(t, op).Some? ==> Check(t, op) == Unready(t, op)
    ensures Passed(t, op, level) && Guard(t, op, level + 1).Some? ==> Check(t, op) == Guard(t, op, level + 1)
    ensures Passed(t, op, 4) <==> Check(t, op) == None
  {
    if Unready(t, op) == None {
      assert Passed(t, op, 4) <==>
          Guard(t, op, 1) == None && Guard(t, op, 2) == None && Guard(t, op, 3) == None && Guard(t, op, 4) == None;
      assert Passed(t, op, level) && level >= 1 ==> Guard(t, op, 1) == None;
      assert Passed(t, op, level) && level >= 2 ==> Guard(t, op, 2) == None;
      assert Passed(t, op, level) && level >= 3 ==> Guard(t, op, 3) == None;
    }
  }

  // ---- the machine ----

  /** A caller's open transaction: its locks so far, and the checks it has passed. */
  datatype Tx = Tx(op: Op, request: Option<string>, plan: seq<Lock>, got: nat, level: nat)

  /** A poll's open transaction past its selection: the promotions it has written, and what it is crediting. */
  datatype Batch = Batch(tags: Tags, ids: seq<DepositId>, now: Time, plan: seq<Lock>, got: nat)

  /** keys are the committed idempotency keys; history lists what committed, in commit order. */
  datatype World = World(t: Tables, keys: set<string>, txs: map<nat, Tx>, polls: map<Chain, Batch>, history: seq<Op>)

  datatype Step =
    | Begin(id: nat, op: Op, request: Option<string>)
    | Take(id: nat)
    | Look(id: nat)
    | Commit(id: nat)
    | Abort(id: nat)
    | Select(chain: Chain, tags: Tags, ids: seq<DepositId>, now: Time)
    | Insert(chain: Chain)
    | CommitPoll(chain: Chain)
    | AbortPoll(chain: Chain)
    | Alone(op: Op)

  function Claims(s: World): Claimants {
    (map p: Party | p in Parties(s) :: if p.Caller? then Claimant(s.txs[p.id].plan, s.txs[p.id].got)
                                      else Claimant(s.polls[p.chain].plan, s.polls[p.chain].got))
  }

  function Parties(s: World): set<Party> {
    (set id | id in s.txs :: Caller(id)) + (set chain | chain in s.polls :: Crediter(chain))
  }

  /** Every lock graded below level is held. */
  predicate Reached(tx: Tx, level: nat) {
    forall i :: 0 <= i < |tx.plan| && Grade(tx.plan[i].on) < level ==> i < tx.got
  }

  /** The next check passes: for level 5, that the idempotency key is not committed. */
  predicate Passes(s: World, tx: Tx)
    requires Unready(s.t, tx.op) == None
  {
    if tx.level < 4 then Guard(s.t, tx.op, tx.level + 1) == None
    else tx.request == None || tx.request.value !in s.keys
  }

  /** The tables as the poll's own transaction sees them when it selects. */
  function PollView(t: Tables, chain: Chain, tags: Tags): Tables { Run(t, Promoting(chain, tags)) }

  /** Everything a crediting poll commits. */
  function Written(chain: Chain, b: Batch): seq<Op> { Promoting(chain, b.tags) + Credits(b.ids, b.now) }

  /** The journal key the next insert takes is already committed: a unique violation. */
  predicate Collides(t: Tables, b: Batch)
    requires b.got < |b.plan|
  {
    b.plan[b.got].on.CauseKey? && b.plan[b.got].on.cause in Causes(t.journal)
  }

  predicate Next(s: World, step: Step, s': World) {
    match step
    case Begin(id, op, request) =>
      id !in s.txs && Locking(op) && Unready(s.t, op) == None
          && s' == s.(txs := s.txs[id := Tx(op, request, Plan(s.t, op, request), 0, 0)])
    case Take(id) =>
      && id in s.txs && AllValid(Claims(s)) && CanTake(Claims(s), Caller(id))
      && var tx := s.txs[id];
      && Grade(tx.plan[tx.got].on) <= tx.level
      && s' == s.(txs := s.txs[id := tx.(got := tx.got + 1)])
    case Look(id) =>
      && id in s.txs
      && var tx := s.txs[id];
      && tx.level < 5 && Reached(tx, tx.level + 1) && Unready(s.t, tx.op) == None
      && s' == s.(txs := if Passes(s, tx) then s.txs[id := tx.(level := tx.level + 1)] else s.txs - {id})
    case Commit(id) =>
      && id in s.txs
      && var tx := s.txs[id];
      && tx.level == 5 && tx.got == |tx.plan|
      // Statements write without looking again: were a check no longer true, anything could be written.
      && (Check(s.t, tx.op) == None ==> s'.t == Effect(s.t, tx.op))
      && s' == s.(t := s'.t, txs := s.txs - {id},
                  keys := if tx.request.Some? then s.keys + {tx.request.value} else s.keys,
                  history := s.history + [tx.op])
    case Abort(id) => id in s.txs && s' == s.(txs := s.txs - {id})
    case Select(chain, tags, ids, now) =>
      && chain !in s.polls && OldestFirst(EligibleAgesOf(PollView(s.t, chain, tags), chain), ids, MAX_CREDITS_PER_POLL)
      && AllJoined(s.t, ids) // as the selection's joins say
      && s' == s.(polls := s.polls[chain := Batch(tags, ids, now, CreditPlan(s.t, ids), 0)])
    case Insert(chain) =>
      && chain in s.polls && AllValid(Claims(s)) && CanTake(Claims(s), Crediter(chain))
      && var b := s.polls[chain];
      && s' == s.(polls := if Collides(s.t, b) then s.polls - {chain} else s.polls[chain := b.(got := b.got + 1)])
    case CommitPoll(chain) =>
      && chain in s.polls
      && var b := s.polls[chain];
      && b.got == |b.plan|
      // Eligibility was looked at once, when selecting: were a deposit no longer eligible, anything could be written.
      && (AllSucceed(PollView(s.t, chain, b.tags), Credits(b.ids, b.now)) ==> s'.t == Run(s.t, Written(chain, b)))
      && s' == s.(t := s'.t, polls := s.polls - {chain}, history := s.history + Written(chain, b))
    case AbortPoll(chain) => chain in s.polls && s' == s.(polls := s.polls - {chain})
    case Alone(op) =>
      && !Locking(op) && !op.Credit? && (forall chain :: chain in s.polls ==> !OfWatcher(s.t, chain, op))
      && s' == s.(t := Apply(s.t, op), history := s.history + [op])
  }

  ghost predicate IsRun(run: seq<World>) {
    && run != [] && Fresh(run[0].t) && run[0].keys == {} && run[0].txs == map[] && run[0].polls == map[]
        && run[0].history == []
    && forall i :: 1 <= i < |run| ==> Moves(run[i - 1], run[i])
  }

  ghost predicate Moves(s: World, s': World) { exists step :: Next(s, step, s') }
}
