/**
  What the broadcast protocol guarantees over whole runs: one durable byte string per withdrawal,
  contiguous nonces, at most one payout, and never both a payout and a released hold.
 */
module Payouts {
  import opened Domain
  import opened Ledger
  import opened Text
  import opened Protocol
  import opened ProtocolProof
  import Records

  /** A run that starts with a wallet no older than the seeded nonce, on a ledger whose journal is exact. */
  ghost predicate SafeRun(cfg: Config, run: seq<State>) {
    Sound(cfg.wire) && IsRun(cfg, run) && run[0].node.first <= cfg.start && Records.Exact(run[0].t)
  }

  // ---- nonces ----

  /**
    In every reachable state the allocated nonces are exactly start .. next_nonce - 1, one per
    claimed withdrawal; at most one withdrawal is signed, and every other claimed one, in
    particular every holder of a lower nonce, has already been broadcast or settled.
   */
  lemma NoncesContiguous(cfg: Config, run: seq<State>, i: nat)
    requires SafeRun(cfg, run) && i < |run|
    ensures cfg.chain in run[i].t.nextNonce
    ensures forall n: nat :: cfg.start <= n < run[i].t.nextNonce[cfg.chain] <==> Allocated(cfg, run[i].t, n)
    ensures forall n: nat, w, w' :: Holds(cfg, run[i].t, w, n) && Holds(cfg, run[i].t, w', n) ==> w == w'
    ensures forall w: WithdrawalId | w < |run[i].t.withdrawals| && run[i].t.withdrawals[w].chain == cfg.chain ::
              run[i].t.withdrawals[w].Claimed() ==> OnChain(cfg, run[i].t, w)
    ensures forall w: WithdrawalId, w': WithdrawalId ::
            SignedRow(cfg, run[i].t, w) && OnChain(cfg, run[i].t, w') && w != w' ==>
              && run[i].t.attempts[w'].nonce < run[i].t.attempts[w].nonce
              && (run[i].t.withdrawals[w'].status == Broadcast || run[i].t.withdrawals[w'].Settled())
  {
    AlwaysInv(cfg, run, i);
    var t := run[i].t;
    forall n: nat | Allocated(cfg, t, n) ensures cfg.start <= n < t.nextNonce[cfg.chain] {
      var w :| Holds(cfg, t, w, n);
      assert OnChain(cfg, t, w);
    }
    assert forall n: nat, w :: Holds(cfg, t, w, n) ==> OnChain(cfg, t, w);
    forall w: WithdrawalId, w': WithdrawalId | SignedRow(cfg, t, w) && OnChain(cfg, t, w') && w != w'
      ensures t.attempts[w'].nonce < t.attempts[w].nonce
      ensures (t.withdrawals[w'].status == Broadcast || t.withdrawals[w'].Settled())
    {
      assert OnChain(cfg, t, w);
      assert t.withdrawals[w'].Claimed();
    }
  }

  // ---- bytes ----

  /** No step moves a nonce, a payment, or signed bytes once they are stored. */
  lemma NextExtends(cfg: Config, s: State, step: Step, s': State)
    requires Inv(cfg, s) && Next(cfg, s, step, s')
    ensures Extends(cfg, s.t, s'.t)
  {
    match step
    case ClaimNext(w) => ClaimRows(cfg, s.t, w);
    case Persist => PersistRows(cfg, s.t, s.proc.w, s.proc.raw);
    case Mark => StatusRow(s.t, MarkBroadcast(s.proc.w), s.proc.w); StatusRows(cfg, s.t, s'.t, s.proc.w);
    case SettleRead(now) =>
      StatusRow(s.t, Settle(s.proc.w, s.proc.success, now), s.proc.w);
      StatusRows(cfg, s.t, s'.t, s.proc.w);
    case Other(op) => if Check(s.t, op) == None { OtherUntouched(cfg, s.t, op); }
    case _ =>
  }

  /** Bytes once durable stay durable, unchanged, in every later state. */
  lemma {:induction false} DurableForever(cfg: Config, run: seq<State>, j: nat, k: nat, w: WithdrawalId, raw: Bytes)
    requires SafeRun(cfg, run) && j <= k < |run| && Persisted(cfg, run[j].t, w, raw)
    ensures Persisted(cfg, run[k].t, w, raw)
  {
    if j < k {
      DurableForever(cfg, run, j, k - 1, w, raw);
      AlwaysInv(cfg, run, k - 1);
      assert Steps(cfg, run[k - 1], run[k - 1 + 1]);
      var step :| Next(cfg, run[k - 1], step, run[k]);
      NextExtends(cfg, run[k - 1], step, run[k]);
      PersistedStays(cfg, run[k - 1].t, run[k].t, w, raw);
    }
  }

  /** Bytes are durable, under their own hash, before they are handed to the node, and remain so. */
  lemma DurableBeforeSend(cfg: Config, run: seq<State>, j: nat, reply: Reply, k: nat)
    requires SafeRun(cfg, run) && j + 1 < |run| && Next(cfg, run[j], Send(reply), run[j + 1]) && j <= k < |run|
    ensures Persisted(cfg, run[k].t, run[j].proc.w, run[j].proc.raw)
  {
    AlwaysInv(cfg, run, j);
    DurableForever(cfg, run, j, k, run[j].proc.w, run[j].proc.raw);
  }

  /** Every byte string ever sent for one withdrawal is the same string, and no string serves two withdrawals. */
  lemma OneStringPerWithdrawal(cfg: Config, run: seq<State>, i: nat, a: nat, b: nat)
    requires SafeRun(cfg, run) && i < |run| && a < |run[i].log| && b < |run[i].log|
    ensures run[i].log[a].0 == run[i].log[b].0 <==> run[i].log[a].1 == run[i].log[b].1
  {
    AlwaysInv(cfg, run, i);
    var t := run[i].t;
    var (w, raw) := run[i].log[a];
    var (w', raw') := run[i].log[b];
    assert Persisted(cfg, t, w, raw) && Persisted(cfg, t, w', raw');
    PersistedRaw(cfg, t, w, raw);
    PersistedRaw(cfg, t, w', raw');
    assert OnChain(cfg, t, w) && OnChain(cfg, t, w');
  }

  /**
    When the node answers "already known" or "nonce too low", the transaction occupying the nonce
    is this withdrawal's own persisted bytes, which the node has accepted before.
   */
  lemma KnownMeansOwn(cfg: Config, run: seq<State>, j: nat, message: string)
    requires SafeRun(cfg, run) && j + 1 < |run| && Next(cfg, run[j], Send(Refused(message)), run[j + 1])
    requires IsAlreadyKnownError(message)
    ensures var s := run[j];
            && s.proc.raw in s.node.accepted && Persisted(cfg, s.t, s.proc.w, s.proc.raw)
            && var n := s.t.attempts[s.proc.w].nonce;
               if n < s.node.count then n in s.node.mined && s.node.mined[n].raw == s.proc.raw
               else n in s.node.pool && s.node.pool[n] == s.proc.raw
  {
    AlwaysInv(cfg, run, j);
    OccupiedMeansAccepted(cfg, run[j], run[j].proc.w, run[j].proc.raw);
  }

  // ---- money ----

  /** The chain has finally paid w: its own bytes are finalized and succeeded. */
  predicate Paid(s: State, w: WithdrawalId)
    requires w in s.t.attempts
  {
    exists n :: n in s.node.mined && Final(s, n, RawOf(s.t, w), true)
  }

  /** The ledger has given w's hold back to the customer's available balance. */
  predicate Released(t: Tables, w: WithdrawalId) { WithdrawalFailure(w) in Causes(t.journal) }

  predicate SettledToTreasury(t: Tables, w: WithdrawalId) { WithdrawalSettlement(w) in Causes(t.journal) }

  lemma {:induction false} ExactAlong(cfg: Config, run: seq<State>, i: nat)
    requires SafeRun(cfg, run) && i < |run|
    ensures Records.Exact(run[i].t)
  {
    if i > 0 {
      ExactAlong(cfg, run, i - 1);
      assert Steps(cfg, run[i - 1], run[i - 1 + 1]);
      var step :| Next(cfg, run[i - 1], step, run[i]);
      match OpOf(cfg, run[i - 1], step)
      case None => TablesStay(cfg, run[i - 1], step, run[i]);
      case Some(op) => TablesStay(cfg, run[i - 1], step, run[i]); Records.ExactStep(run[i - 1].t, op);
    }
  }

  /** The database transaction a step attempts, if any. */
  function OpOf(cfg: Config, s: State, step: Step): Option<Op> {
    match step
    case ClaimNext(w) => Some(Claim(cfg.chain, w))
    case Persist =>
            if s.proc.Assembled? then Some(RecordSigned(s.proc.w, cfg.wire.hash(s.proc.raw), HexEncode(s.proc.raw)))
            else None
    case Mark => if s.proc.Sent? then Some(MarkBroadcast(s.proc.w)) else None
    case SettleRead(now) => if s.proc.Settling? then Some(Settle(s.proc.w, s.proc.success, now)) else None
    case Other(op) => Some(op)
    case _ => None
  }

  lemma TablesStay(cfg: Config, s: State, step: Step, s': State)
    requires Next(cfg, s, step, s')
    ensures s'.t == match OpOf(cfg, s, step) { case None => s.t case Some(op) => Apply(s.t, op) }
  {
    hide Check, Effect;
  }

  /**
    The payout theorem. For every claimed withdrawal, in every state of every run:
    it reaches confirmed, or has its hold moved to the treasury, only if its own transaction is
    finalized and succeeded; it reaches failed, or has its hold released, only if its own
    transaction is finalized and reverted; it is never both paid and released.
   */
  lemma PayoutSafety(cfg: Config, run: seq<State>, i: nat, w: WithdrawalId)
    requires SafeRun(cfg, run) && i < |run| && OnChain(cfg, run[i].t, w)
    ensures run[i].t.withdrawals[w].status == Confirmed || SettledToTreasury(run[i].t, w) ==> Paid(run[i], w)
    ensures run[i].t.withdrawals[w].status == Failed || Released(run[i].t, w) ==>
              Final(run[i], run[i].t.attempts[w].nonce, RawOf(run[i].t, w), false)
    ensures !(Paid(run[i], w) && Released(run[i].t, w))
    ensures run[i].t.withdrawals[w].status == Broadcast || run[i].t.withdrawals[w].Settled() ==>
            RawOf(run[i].t, w) in run[i].node.accepted
  {
    AlwaysInv(cfg, run, i);
    ExactAlong(cfg, run, i);
    var s := run[i];
    assert OutcomeOf(s, w);
    assert SettledToTreasury(s.t, w) ==> Records.Justified(s.t, WithdrawalSettlement(w));
    assert Released(s.t, w) ==> Records.Justified(s.t, WithdrawalFailure(w));
    PaidAtOwnNonce(cfg, s, w);
  }

  lemma PaidAtOwnNonce(cfg: Config, s: State, w: WithdrawalId)
    requires Inv(cfg, s) && OnChain(cfg, s.t, w)
    ensures Paid(s, w) ==> Final(s, s.t.attempts[w].nonce, RawOf(s.t, w), true)
  {
    if Paid(s, w) {
      var n :| n in s.node.mined && Final(s, n, RawOf(s.t, w), true);
      assert Owned(cfg, s, n, RawOf(s.t, w));
    }
  }

  lemma MinedOnce(cfg: Config, s: State, w: WithdrawalId, n: nat, m: nat)
    requires Inv(cfg, s) && OnChain(cfg, s.t, w) && n in s.node.mined && m in s.node.mined
    requires s.node.mined[n].raw == RawOf(s.t, w) && s.node.mined[m].raw == RawOf(s.t, w)
    ensures n == m
  {
    assert Owned(cfg, s, n, s.node.mined[n].raw) && Owned(cfg, s, m, s.node.mined[m].raw);
  }

  /**
    Every transaction of the wallet in a block, from the seeded nonce on, is the one payment of
    exactly one withdrawal: to its destination, of its amount, in its asset. No withdrawal's
    bytes are in two blocks.
   */
  lemma EachPaymentIsOneWithdrawal(cfg: Config, run: seq<State>, i: nat, n: nat) returns (w: WithdrawalId)
    requires SafeRun(cfg, run) && i < |run| && n in run[i].node.mined
    ensures OnChain(cfg, run[i].t, w) && run[i].node.mined[n].raw == RawOf(run[i].t, w)
    ensures var row := run[i].t.withdrawals[w];
            cfg.wire.parse(run[i].node.mined[n].raw) == Some(Payment(n, row.asset, row.destination, row.amount))
    ensures forall w': WithdrawalId :: OnChain(cfg, run[i].t, w') && RawOf(run[i].t, w') == run[i].node.mined[n].raw ==>
            w' == w
    ensures forall m :: m in run[i].node.mined && run[i].node.mined[m].raw == run[i].node.mined[n].raw ==> m == n
  {
    AlwaysInv(cfg, run, i);
    var s := run[i];
    var raw := s.node.mined[n].raw;
    assert Owned(cfg, s, n, raw);
    w :| Holds(cfg, s.t, w, n) && Persisted(cfg, s.t, w, raw);
    PersistedRaw(cfg, s.t, w, raw);
    forall w': WithdrawalId | OnChain(cfg, s.t, w') && RawOf(s.t, w') == raw ensures w' == w {
      assert s.t.attempts[w'].signedTx.Some?;
      assert Persisted(cfg, s.t, w', RawOf(s.t, w'));
    }
    forall m | m in s.node.mined && s.node.mined[m].raw == raw ensures m == n { MinedOnce(cfg, s, w, m, n); }
  }
}
