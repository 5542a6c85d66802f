/** The broadcast invariant is inductive: it holds at first start and survives every step. */
module ProtocolProof {
  import opened Domain
  import opened Ledger
  import opened Text
  import opened Protocol

  // ---- durable facts ----

  /** What every step keeps: nonces, payments, and signed bytes once stored. */
  ghost predicate Extends(cfg: Config, t: Tables, t': Tables) {
    forall w: WithdrawalId :: OnChain(cfg, t, w) ==>
      && OnChain(cfg, t', w) && PaymentFor(t', w) == PaymentFor(t, w)
      && (t.attempts[w].signedTx.Some? ==> t'.attempts[w] == t.attempts[w])
  }

  /** Rows of this chain's claimed withdrawals did not change where the protocol looks. */
  ghost predicate KeepsRows(cfg: Config, t: Tables, t': Tables) {
    forall w: WithdrawalId :: OnChain(cfg, t, w) ==> SameRow(cfg, t, t', w)
  }

  predicate SameRow(cfg: Config, t: Tables, t': Tables, w: WithdrawalId)
    requires OnChain(cfg, t, w)
  {
    && OnChain(cfg, t', w) && PaymentFor(t', w) == PaymentFor(t, w) && t'.attempts[w] == t.attempts[w]
    && t'.withdrawals[w].status == t.withdrawals[w].status && t'.withdrawals[w].txHash == t.withdrawals[w].txHash
  }

  /** Another process committed: nothing of this chain's protocol moved. */
  ghost predicate Untouched(cfg: Config, t: Tables, t': Tables) {
    && KeepsRows(cfg, t, t')
    && (forall w: WithdrawalId :: OnChain(cfg, t', w) ==> OnChain(cfg, t, w))
    && (cfg.chain in t.nextNonce ==> cfg.chain in t'.nextNonce && t'.nextNonce[cfg.chain] == t.nextNonce[cfg.chain])
  }

  lemma OtherUntouched(cfg: Config, t: Tables, op: Op)
    requires Attempted(t) && !BroadcasterOnly(cfg, t, op) && Check(t, op) == None
    ensures Untouched(cfg, t, Effect(t, op))
  {
    forall w: WithdrawalId | OnChain(cfg, t, w) || OnChain(cfg, Effect(t, op), w)
      ensures OnChain(cfg, t, w) && SameRow(cfg, t, Effect(t, op), w)
    {
      OtherRow(cfg, t, op, w);
    }
    if cfg.chain in t.nextNonce { OtherNonce(cfg, t, op); }
    hide Check, Effect;
  }

  lemma OtherNonce(cfg: Config, t: Tables, op: Op)
    requires !BroadcasterOnly(cfg, t, op) && Check(t, op) == None && cfg.chain in t.nextNonce
    ensures cfg.chain in Effect(t, op).nextNonce && Effect(t, op).nextNonce[cfg.chain] == t.nextNonce[cfg.chain]
  {
  }

  lemma OtherRow(cfg: Config, t: Tables, op: Op, w: WithdrawalId)
    requires Attempted(t) && !BroadcasterOnly(cfg, t, op) && Check(t, op) == None
    requires OnChain(cfg, t, w) || OnChain(cfg, Effect(t, op), w)
    ensures OnChain(cfg, t, w) && SameRow(cfg, t, Effect(t, op), w)
  {
    OtherAttempt(cfg, t, op, w);
    if OnChain(cfg, t, w) { OtherWithdrawal(cfg, t, op, w); }
    hide Check, Effect, BroadcasterOnly;
  }

  /** Only the broadcaster writes an attempt of its chain. */
  lemma OtherAttempt(cfg: Config, t: Tables, op: Op, w: WithdrawalId)
    requires Attempted(t) && !BroadcasterOnly(cfg, t, op) && Check(t, op) == None
    ensures OnChain(cfg, Effect(t, op), w) ==> OnChain(cfg, t, w)
    ensures OnChain(cfg, t, w) ==> OnChain(cfg, Effect(t, op), w) && Effect(t, op).attempts[w] == t.attempts[w]
  {
  }

  lemma OtherWithdrawal(cfg: Config, t: Tables, op: Op, w: WithdrawalId)
    requires Attempted(t) && !BroadcasterOnly(cfg, t, op) && Check(t, op) == None && OnChain(cfg, t, w)
    ensures w < |Effect(t, op).withdrawals|
    ensures var row, row' := t.withdrawals[w], Effect(t, op).withdrawals[w];
            && row'.status == row.status && row'.txHash == row.txHash
            && row'.asset == row.asset && row'.destination == row.destination && row'.amount == row.amount
  {
  }

  predicate AttemptedRow(t: Tables, w: WithdrawalId) {
    w in t.attempts <==> w < |t.withdrawals| && t.withdrawals[w].Claimed()
  }

  lemma AttemptedRowStep(t: Tables, op: Op, w: WithdrawalId)
    requires AttemptedRow(t, w) && Check(t, op) == None && (op.RequestWithdrawal? ==> |t.withdrawals| !in t.attempts)
    ensures AttemptedRow(Effect(t, op), w)
  {
  }

  lemma AttemptedByRows(t: Tables)
    requires forall w: WithdrawalId :: AttemptedRow(t, w)
    ensures Attempted(t)
  {
    forall w | w in t.attempts ensures w < |t.withdrawals| { assert AttemptedRow(t, w); }
    forall w | 0 <= w < |t.withdrawals|
      ensures t.withdrawals[w].Claimed() <==> w in t.attempts
    {
      assert AttemptedRow(t, w);
    }
  }

  lemma AttemptedStep(t: Tables, op: Op)
    requires Attempted(t) && Check(t, op) == None
    ensures Attempted(Effect(t, op))
  {
    hide Check, Effect;
    var t' := Effect(t, op);
    forall w: WithdrawalId ensures AttemptedRow(t', w) {
      assert AttemptedRow(t, w) && AttemptedRow(t, |t.withdrawals|);
      AttemptedRowStep(t, op, w);
    }
    AttemptedByRows(t');
  }

  /** Bytes persisted for a withdrawal are the bytes read back for it, so there is only one such string. */
  lemma PersistedRaw(cfg: Config, t: Tables, w: WithdrawalId, raw: Bytes)
    requires Persisted(cfg, t, w, raw)
    ensures StoredBytes(t, w) == Some(raw) && RawOf(t, w) == raw
  {
    HexRoundTrip(raw);
    StoredRoundTrip(raw);
  }

  lemma PersistedStays(cfg: Config, t: Tables, t': Tables, w: WithdrawalId, raw: Bytes)
    requires Extends(cfg, t, t') && Persisted(cfg, t, w, raw)
    ensures Persisted(cfg, t', w, raw) && RawOf(t', w) == RawOf(t, w)
  {
  }

  lemma OwnedStays(cfg: Config, s: State, s': State, n: nat, raw: Bytes)
    requires Extends(cfg, s.t, s'.t) && s.node.accepted <= s'.node.accepted && Owned(cfg, s, n, raw)
    ensures Owned(cfg, s', n, raw)
  {
    var w :| Holds(cfg, s.t, w, n) && Persisted(cfg, s.t, w, raw);
    PersistedStays(cfg, s.t, s'.t, w, raw);
    assert Holds(cfg, s'.t, w, n);
  }

  lemma NodeOkStays(cfg: Config, s: State, s': State)
    requires NodeOk(cfg, s) && Extends(cfg, s.t, s'.t) && s'.node == s.node
    ensures NodeOk(cfg, s')
  {
    forall n | n in s.node.mined
      ensures Owned(cfg, s', n, s.node.mined[n].raw)
    {
      OwnedStays(cfg, s, s', n, s.node.mined[n].raw);
    }
    forall n | n in s.node.pool ensures Owned(cfg, s', n, s.node.pool[n]) { OwnedStays(cfg, s, s', n, s.node.pool[n]); }
  }

  lemma LogOkStays(cfg: Config, s: State, s': State)
    requires LogOk(cfg, s) && Extends(cfg, s.t, s'.t) && s'.log == s.log
    ensures LogOk(cfg, s')
  {
    forall i | 0 <= i < |s.log| ensures Persisted(cfg, s'.t, s.log[i].0, s.log[i].1) {
      PersistedStays(cfg, s.t, s'.t, s.log[i].0, s.log[i].1);
    }
  }

  // ---- steps of other processes ----

  lemma NoncesUntouched(cfg: Config, t: Tables, t': Tables)
    requires Nonces(cfg, t) && Untouched(cfg, t, t')
    ensures Nonces(cfg, t')
  {
    forall n | cfg.start <= n < t'.nextNonce[cfg.chain] ensures Allocated(cfg, t', n) {
      assert Allocated(cfg, t, n);
      var w :| Holds(cfg, t, w, n);
      assert OnChain(cfg, t, w);
      assert Holds(cfg, t', w, n);
    }
  }

  lemma StoredUntouched(cfg: Config, t: Tables, t': Tables)
    requires Stored(cfg, t) && Untouched(cfg, t, t')
    ensures Stored(cfg, t')
  {
  }

  lemma ProcUntouched(cfg: Config, s: State, s': State)
    requires ProcOk(cfg, s) && Untouched(cfg, s.t, s'.t) && s' == s.(t := s'.t)
    ensures ProcOk(cfg, s')
  {
  }

  lemma OutcomesKept(cfg: Config, s: State, s': State)
    requires Outcomes(cfg, s) && KeepsRows(cfg, s.t, s'.t) && s'.node == s.node
    requires forall w: WithdrawalId :: OnChain(cfg, s'.t, w) && !OnChain(cfg, s.t, w) ==>
            s'.t.withdrawals[w].status == Signed
    ensures Outcomes(cfg, s')
  {
    forall w: WithdrawalId | OnChain(cfg, s'.t, w) ensures OutcomeOf(s', w) {
      if OnChain(cfg, s.t, w) { assert OutcomeOf(s, w); }
    }
  }

  lemma OtherStep(cfg: Config, s: State, op: Op)
    requires Inv(cfg, s) && !BroadcasterOnly(cfg, s.t, op)
    ensures Inv(cfg, s.(t := Apply(s.t, op)))
  {
    if Check(s.t, op) == None {
      var s' := s.(t := Effect(s.t, op));
      OtherUntouched(cfg, s.t, op);
      AttemptedStep(s.t, op);
      hide Check, Effect;
      NoncesUntouched(cfg, s.t, s'.t);
      StoredUntouched(cfg, s.t, s'.t);
      ProcUntouched(cfg, s, s');
      OutcomesKept(cfg, s, s');
      NodeOkStays(cfg, s, s');
      LogOkStays(cfg, s, s');
    }
  }

  // ---- the broadcaster's own transactions ----

  lemma ClaimStep(cfg: Config, s: State, w: WithdrawalId)
    requires Inv(cfg, s) && s.proc == NothingToResume && Check(s.t, Claim(cfg.chain, w)) == None
    ensures Inv(cfg, s.(t := Effect(s.t, Claim(cfg.chain, w)), proc := Signing(w)))
  {
    var s' := s.(t := Effect(s.t, Claim(cfg.chain, w)), proc := Signing(w));
    AttemptedStep(s.t, Claim(cfg.chain, w));
    ClaimNonces(cfg, s.t, w);
    ClaimRows(cfg, s.t, w);
    hide Check, Effect;
    OutcomesKept(cfg, s, s');
    NodeOkStays(cfg, s, s');
    LogOkStays(cfg, s, s');
  }

  /** Claiming adds one row to the protocol, unsigned, and moves no other. */
  lemma ClaimRows(cfg: Config, t: Tables, w: WithdrawalId)
    requires Stored(cfg, t) && Check(t, Claim(cfg.chain, w)) == None
    ensures var t' := Effect(t, Claim(cfg.chain, w));
            && KeepsRows(cfg, t, t') && Stored(cfg, t') && SignedRow(cfg, t', w) && t'.attempts[w].signedTx == None
            && forall x: WithdrawalId :: OnChain(cfg, t', x) && !OnChain(cfg, t, x) ==> x == w
  {
  }

  lemma ClaimedRow(cfg: Config, t: Tables, w: WithdrawalId)
    requires Check(t, Claim(cfg.chain, w)) == None
    ensures w < |t.withdrawals| && t.withdrawals[w].chain == cfg.chain && w !in t.attempts && cfg.chain in t.nextNonce
    ensures var t', n := Effect(t, Claim(cfg.chain, w)), t.nextNonce[cfg.chain];
            && t'.nextNonce == t.nextNonce[cfg.chain := n + 1] && t'.attempts == t.attempts[w := Attempt(n, None, None)]
            && t'.withdrawals == t.withdrawals[w := t.withdrawals[w].(status := Signed, nonce := Some(n))]
  {
  }

  lemma ClaimNonces(cfg: Config, t: Tables, w: WithdrawalId)
    requires Nonces(cfg, t) && Check(t, Claim(cfg.chain, w)) == None
    requires forall x: WithdrawalId :: OnChain(cfg, t, x) ==> t.withdrawals[x].status != Signed
    ensures Nonces(cfg, Effect(t, Claim(cfg.chain, w)))
  {
    var t' := Effect(t, Claim(cfg.chain, w));
    ClaimedRow(cfg, t, w);
    hide Check, Effect;
    forall n | cfg.start <= n < t'.nextNonce[cfg.chain] ensures Allocated(cfg, t', n) {
      if n == t.nextNonce[cfg.chain] {
        assert Holds(cfg, t', w, n);
      } else {
        assert Allocated(cfg, t, n);
        var x :| Holds(cfg, t, x, n);
        assert Holds(cfg, t', x, n);
      }
    }
  }

  lemma PersistStep(cfg: Config, s: State)
    requires Inv(cfg, s) && s.proc.Assembled?
    requires Check(s.t, RecordSigned(s.proc.w, cfg.wire.hash(s.proc.raw), HexEncode(s.proc.raw))) == None
    ensures Inv(cfg, s.(t := Effect(s.t, RecordSigned(s.proc.w, cfg.wire.hash(s.proc.raw), HexEncode(s.proc.raw))),
                        proc := Sending(s.proc.w, s.proc.raw)))
  {
    var op := RecordSigned(s.proc.w, cfg.wire.hash(s.proc.raw), HexEncode(s.proc.raw));
    var s' := s.(t := Effect(s.t, op), proc := Sending(s.proc.w, s.proc.raw));
    AttemptedStep(s.t, op);
    PersistRows(cfg, s.t, s.proc.w, s.proc.raw);
    hide Check, Effect;
    NoncesSameHolders(cfg, s.t, s'.t);
    NodeOkStays(cfg, s, s');
    LogOkStays(cfg, s, s');
    hide Nonces, Stored, NodeOk, LogOk, Attempted, SameHolders, Extends;
    assert OutcomeOf(s', s.proc.w);
    hide OutcomeOf, RawOf;
    OutcomesExcept(cfg, s, s', s.proc.w);
  }

  /** Persisting the bytes assembled for a signed row makes them that row's durable bytes. */
  lemma PersistRows(cfg: Config, t: Tables, w: WithdrawalId, raw: Bytes)
    requires Stored(cfg, t) && SignedRow(cfg, t, w) && t.attempts[w].signedTx == None && raw != []
    requires cfg.wire.parse(raw) == Some(PaymentFor(t, w))
    requires Check(t, RecordSigned(w, cfg.wire.hash(raw), HexEncode(raw))) == None
    ensures var t' := Effect(t, RecordSigned(w, cfg.wire.hash(raw), HexEncode(raw)));
            && Extends(cfg, t, t') && Stored(cfg, t') && SameHolders(cfg, t, t') && Persisted(cfg, t', w, raw)
            && t'.withdrawals == t.withdrawals
            && forall x: WithdrawalId :: OnChain(cfg, t, x) && x != w ==> t'.attempts[x] == t.attempts[x]
  {
    var t' := Effect(t, RecordSigned(w, cfg.wire.hash(raw), HexEncode(raw)));
    assert t' == t.(attempts :=
        t.attempts[w := Attempt(t.attempts[w].nonce, Some(cfg.wire.hash(raw)), Some(HexEncode(raw)))]);
    hide Check, Effect;
    assert Persisted(cfg, t', w, raw);
    PersistedRaw(cfg, t', w, raw);
    forall x: WithdrawalId | OnChain(cfg, t', x) && t'.attempts[x].signedTx.Some?
      ensures Persisted(cfg, t', x, RawOf(t', x))
    {
      if x != w { assert OnChain(cfg, t, x); assert Persisted(cfg, t, x, RawOf(t, x)); }
    }
    assert forall x: WithdrawalId :: OnChain(cfg, t', x) <==> OnChain(cfg, t, x);
  }

  /** The same withdrawals hold the same nonces, and none became signed. */
  ghost predicate SameHolders(cfg: Config, t: Tables, t': Tables) {
    && t'.nextNonce == t.nextNonce
    && (forall w: WithdrawalId :: OnChain(cfg, t', w) ==> OnChain(cfg, t, w))
    && (forall w: WithdrawalId :: OnChain(cfg, t, w) ==>
          OnChain(cfg, t', w) && t'.attempts[w].nonce == t.attempts[w].nonce
          && (t'.withdrawals[w].status == Signed ==> t.withdrawals[w].status == Signed))
  }

  lemma NoncesSameHolders(cfg: Config, t: Tables, t': Tables)
    requires Nonces(cfg, t) && SameHolders(cfg, t, t')
    ensures Nonces(cfg, t')
  {
    forall n | cfg.start <= n < t'.nextNonce[cfg.chain] ensures Allocated(cfg, t', n) {
      assert Allocated(cfg, t, n);
      var w :| Holds(cfg, t, w, n);
      assert OnChain(cfg, t, w);
      assert Holds(cfg, t', w, n);
    }
  }

  /** The row about to change status has its bytes, and its new status is true of the chain. */
  lemma StatusReady(cfg: Config, s: State, op: Op, w: WithdrawalId)
    requires Inv(cfg, s) && Check(s.t, op) == None && OnChain(cfg, s.t, w)
    requires op == MarkBroadcast(w) || (op.Settle? && op.w == w)
    requires s.proc == (if op.Settle? then Settling(w, op.success) else Sent(w))
    ensures s.t.attempts[w].signedTx.Some? && (op.Settle? ==> s.t.withdrawals[w].txHash == s.t.attempts[w].txHash)
    ensures RawOf(s.t, w) in s.node.accepted
    ensures (op.Settle? ==> Final(s, s.t.attempts[w].nonce, RawOf(s.t, w), op.success))
  {
    hide Check, Effect, Nonces, NodeOk, LogOk, Attempted, RawOf, Final;
    assert OutcomeOf(s, w);
  }

  lemma StatusOutcome(s: State, op: Op, w: WithdrawalId)
    requires Check(s.t, op) == None && (op == MarkBroadcast(w) || (op.Settle? && op.w == w)) && w in s.t.attempts
    requires RawOf(s.t, w) in s.node.accepted
    requires (op.Settle? ==> Final(s, s.t.attempts[w].nonce, RawOf(s.t, w), op.success))
    ensures w < |Effect(s.t, op).withdrawals| && w in Effect(s.t, op).attempts
    ensures OutcomeOf(s.(t := Effect(s.t, op), proc := Idle), w)
  {
    hide Check, Effect;
    StatusRow(s.t, op, w);
  }

  /** Marking broadcast and settling change one row's status and nothing the other facts look at. */
  lemma StatusStep(cfg: Config, s: State, op: Op, w: WithdrawalId)
    requires Inv(cfg, s) && Check(s.t, op) == None && OnChain(cfg, s.t, w)
    requires op == MarkBroadcast(w) || (op.Settle? && op.w == w)
    requires s.proc == (if op.Settle? then Settling(w, op.success) else Sent(w))
    ensures Inv(cfg, s.(t := Effect(s.t, op), proc := Idle))
  {
    hide Check, Effect, Nonces, NodeOk, LogOk, Attempted, SameHolders, Extends, Stored, OutcomeOf, RawOf;
    var s' := s.(t := Effect(s.t, op), proc := Idle);
    AttemptedStep(s.t, op);
    StatusRow(s.t, op, w);
    StatusReady(cfg, s, op, w);
    StatusOutcome(s, op, w);
    StatusRows(cfg, s.t, s'.t, w);
    NoncesSameHolders(cfg, s.t, s'.t);
    NodeOkStays(cfg, s, s');
    LogOkStays(cfg, s, s');
    OutcomesExcept(cfg, s, s', w);
  }

  /** Rows that did not move keep their outcome. */
  lemma OutcomesExcept(cfg: Config, s: State, s': State, w: WithdrawalId)
    requires Outcomes(cfg, s) && s'.node == s.node && OnChain(cfg, s'.t, w) && OutcomeOf(s', w)
    requires forall x: WithdrawalId :: OnChain(cfg, s'.t, x) && x != w ==>
               OnChain(cfg, s.t, x) && s'.t.withdrawals[x] == s.t.withdrawals[x] && s'.t.attempts[x] == s.t.attempts[x]
    ensures Outcomes(cfg, s')
  {
    forall x: WithdrawalId | OnChain(cfg, s'.t, x) ensures OutcomeOf(s', x) { assert x != w ==> OutcomeOf(s, x); }
  }

  lemma StatusRows(cfg: Config, t: Tables, t': Tables, w: WithdrawalId)
    requires Stored(cfg, t) && OnChain(cfg, t, w) && w < |t'.withdrawals| && t.attempts[w].signedTx.Some?
    requires t'.attempts == t.attempts && t'.nextNonce == t.nextNonce
    requires t'.withdrawals == t.withdrawals[w := t'.withdrawals[w]]
    requires t'.withdrawals[w] == t.withdrawals[w].(status := t'.withdrawals[w].status, txHash := t.attempts[w].txHash)
    requires t'.withdrawals[w].status != Signed
    ensures Extends(cfg, t, t') && SameHolders(cfg, t, t') && Stored(cfg, t')
    ensures forall x: WithdrawalId :: OnChain(cfg, t', x) <==> OnChain(cfg, t, x)
    ensures forall x: WithdrawalId :: OnChain(cfg, t, x) && x != w ==> t'.withdrawals[x] == t.withdrawals[x]
  {
    assert forall x: WithdrawalId :: OnChain(cfg, t', x) <==> OnChain(cfg, t, x);
    forall x: WithdrawalId | OnChain(cfg, t', x) && t'.attempts[x].signedTx.Some?
      ensures Persisted(cfg, t', x, RawOf(t', x))
    {
      assert Persisted(cfg, t, x, RawOf(t, x));
    }
  }

  lemma StatusRow(t: Tables, op: Op, w: WithdrawalId)
    requires Check(t, op) == None && (op == MarkBroadcast(w) || (op.Settle? && op.w == w))
    ensures w < |t.withdrawals| && t.withdrawals[w].status == (if op.Settle? then Broadcast else Signed)
    ensures Effect(t, op).attempts == t.attempts && Effect(t, op).nextNonce == t.nextNonce
    ensures op.MarkBroadcast? ==> w in t.attempts
    ensures Effect(t, op).withdrawals == t.withdrawals[w :=
              if op.Settle? then t.withdrawals[w].(status := if op.success then Confirmed else Failed)
              else t.withdrawals[w].(status := Broadcast, txHash := t.attempts[w].txHash)]
  {
  }

  // ---- the chain ----

  /** The transaction occupying a nonce this withdrawal holds is this withdrawal's own. */
  lemma OccupantIsOwn(cfg: Config, s: State, w: WithdrawalId, raw: Bytes, other: Bytes)
    requires Nonces(cfg, s.t) && Persisted(cfg, s.t, w, raw) && Owned(cfg, s, s.t.attempts[w].nonce, other)
    ensures other == raw && raw in s.node.accepted
  {
    var w' :| Holds(cfg, s.t, w', s.t.attempts[w].nonce) && Persisted(cfg, s.t, w', other);
    assert OnChain(cfg, s.t, w') && OnChain(cfg, s.t, w);
    PersistedRaw(cfg, s.t, w, raw);
    PersistedRaw(cfg, s.t, w', other);
  }

  /** "already known" and "nonce too low" are only ever said about the withdrawal's own bytes. */
  lemma OccupiedMeansAccepted(cfg: Config, s: State, w: WithdrawalId, raw: Bytes)
    requires Nonces(cfg, s.t) && NodeOk(cfg, s) && Persisted(cfg, s.t, w, raw)
    requires Occupied(s.node, s.t.attempts[w].nonce)
    ensures raw in s.node.accepted
    ensures var n := s.t.attempts[w].nonce;
            if n < s.node.count then n in s.node.mined && s.node.mined[n].raw == raw else s.node.pool[n] == raw
  {
    var n := s.t.attempts[w].nonce;
    assert OnChain(cfg, s.t, w);
    OccupantIsOwn(cfg, s, w, raw, if n < s.node.count then s.node.mined[n].raw else s.node.pool[n]);
  }

  lemma AdmitStep(cfg: Config, s: State, w: WithdrawalId, raw: Bytes)
    requires NodeOk(cfg, s) && Persisted(cfg, s.t, w, raw) && s.node.count <= s.t.attempts[w].nonce
    ensures NodeOk(cfg, s.(node := Admit(s.node, s.t.attempts[w].nonce, raw)))
  {
    var n := s.t.attempts[w].nonce;
    var s' := s.(node := Admit(s.node, n, raw));
    forall m | m in s'.node.mined
      ensures Owned(cfg, s', m, s'.node.mined[m].raw)
    {
      OwnedStays(cfg, s, s', m, s.node.mined[m].raw);
    }
    forall m | m in s'.node.pool ensures m >= s'.node.count && Owned(cfg, s', m, s'.node.pool[m]) {
      if m == n {
        assert Holds(cfg, s'.t, w, n) && Persisted(cfg, s'.t, w, raw);
      } else {
        OwnedStays(cfg, s, s', m, s.node.pool[m]);
      }
    }
  }

  lemma SendStep(cfg: Config, s: State, reply: Reply, s': State)
    requires Inv(cfg, s) && Next(cfg, s, Send(reply), s')
    ensures Inv(cfg, s')
    ensures s'.proc.Sent? ==> s.proc.raw in s'.node.accepted
  {
    hide Attempted, Nonces, Stored, NodeOk, Outcomes, LogOk, Persisted, RawOf, OutcomeOf, Replies;
    SendNode(cfg, s, reply, s');
    SendRest(cfg, s, reply, s');
  }

  lemma SendNode(cfg: Config, s: State, reply: Reply, s': State)
    requires Inv(cfg, s) && Next(cfg, s, Send(reply), s')
    ensures NodeOk(cfg, s') && s.proc.Sending? && Persisted(cfg, s.t, s.proc.w, s.proc.raw)
    ensures RawOf(s.t, s.proc.w) == s.proc.raw
    ensures s.node.accepted <= s'.node.accepted && (s'.proc.Sent? ==> s.proc.raw in s'.node.accepted)
    ensures s'.node.mined == s.node.mined && s'.node.fin == s.node.fin
  {
    var w, raw := s.proc.w, s.proc.raw;
    hide Attempted, Stored, Outcomes, LogOk, IsAlreadyKnownError, RawOf, NodeOk, Nonces, Owned;
    PersistedRaw(cfg, s.t, w, raw);
    if s'.node != s.node { AdmitStep(cfg, s, w, raw); }
    if Occupied(s.node, s.t.attempts[w].nonce) { OccupiedMeansAccepted(cfg, s, w, raw); }
    OwnedOnlyNode(cfg, s.(node := s'.node), s');
  }

  lemma SendRest(cfg: Config, s: State, reply: Reply, s': State)
    requires Outcomes(cfg, s) && LogOk(cfg, s) && Next(cfg, s, Send(reply), s')
    requires Persisted(cfg, s.t, s.proc.w, s.proc.raw)
    requires s.node.accepted <= s'.node.accepted && s'.node.mined == s.node.mined && s'.node.fin == s.node.fin
    ensures Outcomes(cfg, s') && LogOk(cfg, s')
  {
    hide Persisted, RawOf, Replies;
    forall x: WithdrawalId | OnChain(cfg, s'.t, x) ensures OutcomeOf(s', x) { assert OutcomeOf(s, x); }
  }

  /** Accepting more and finalizing more forgets no outcome. */
  lemma OutcomesAdvance(cfg: Config, s: State, s': State)
    requires Outcomes(cfg, s) && s'.t == s.t && s.node.accepted <= s'.node.accepted
    requires forall n, raw, ok :: Final(s, n, raw, ok) ==> Final(s', n, raw, ok)
    ensures Outcomes(cfg, s')
  {
    forall x: WithdrawalId | OnChain(cfg, s'.t, x) ensures OutcomeOf(s', x) { assert OutcomeOf(s, x); }
  }

  lemma OwnedOnlyNode(cfg: Config, s: State, s': State)
    requires NodeOk(cfg, s) && s'.node == s.node && s'.t == s.t
    ensures NodeOk(cfg, s')
  {
    forall n | n in s.node.mined
      ensures Owned(cfg, s', n, s.node.mined[n].raw)
    {
      assert Owned(cfg, s, n, s.node.mined[n].raw);
    }
    forall n | n in s.node.pool ensures Owned(cfg, s', n, s.node.pool[n]) { assert Owned(cfg, s, n, s.node.pool[n]); }
  }

  lemma ChainStep(cfg: Config, s: State, step: Step, s': State)
    requires Inv(cfg, s) && (step.Mine? || step.Reorg? || step.Finalize?) && Next(cfg, s, step, s')
    ensures Inv(cfg, s')
  {
    NodeChainStep(cfg, s, step, s');
    FinalStays(s, step, s', cfg);
    OutcomesAdvance(cfg, s, s');
    assert LogOk(cfg, s');
    hide NodeOk, Outcomes, Nonces, Stored;
  }

  lemma NodeChainStep(cfg: Config, s: State, step: Step, s': State)
    requires NodeOk(cfg, s) && (step.Mine? || step.Reorg? || step.Finalize?) && Next(cfg, s, step, s')
    ensures NodeOk(cfg, s')
  {
    BlocksMove(s.node, step, s'.node);
    forall n | n in s'.node.mined ensures Owned(cfg, s', n, s'.node.mined[n].raw) {
      assert if n in s.node.mined then Owned(cfg, s, n, s.node.mined[n].raw) else Owned(cfg, s, n, s.node.pool[n]);
      OwnedStays(cfg, s, s', n, s'.node.mined[n].raw);
    }
    forall n | n in s'.node.pool ensures Owned(cfg, s', n, s'.node.pool[n]) {
      assert n in s.node.mined ==> Owned(cfg, s, n, s.node.mined[n].raw);
      assert n in s.node.pool ==> Owned(cfg, s, n, s.node.pool[n]);
      OwnedStays(cfg, s, s', n, s'.node.pool[n]);
    }
  }

  /** Blocks and pool only exchange transactions already at that nonce. */
  lemma BlocksMove(node: Node, step: Step, node': Node)
    requires node.first <= node.count
    requires forall n :: n in node.mined <==> node.first <= n < node.count
    requires forall n :: n in node.pool ==> n >= node.count
    requires match step
             case Mine(ok) => MineStep(node, ok, node')
             case Reorg => ReorgStep(node, node')
             case Finalize => FinalizeStep(node, node')
             case _ => false
    ensures node'.first == node.first && node'.first <= node'.count && node'.accepted == node.accepted
    ensures forall n :: n in node'.mined <==> node'.first <= n < node'.count
    ensures forall n :: n in node'.mined ==>
              if n in node.mined then node'.mined[n] == node.mined[n]
              else n in node.pool && node'.mined[n].raw == node.pool[n]
    ensures forall n :: n in node'.pool ==> n >= node'.count
    ensures forall n :: n in node'.pool ==>
              (n in node.pool && node'.pool[n] == node.pool[n]) ||
                  (n in node.mined && node'.pool[n] == node.mined[n].raw)
  {
  }

  /** Finalized receipts are stable. */
  lemma FinalStays(s: State, step: Step, s': State, cfg: Config)
    requires forall n :: n in s.node.mined ==> n < s.node.count
    requires (step.Mine? || step.Reorg? || step.Finalize?) && Next(cfg, s, step, s')
    ensures s'.node.accepted == s.node.accepted
    ensures forall n, raw, ok :: Final(s, n, raw, ok) ==> Final(s', n, raw, ok)
  {
  }

  /** A final receipt under w's recorded hash is the outcome of w's own bytes at w's own nonce. */
  lemma ReceiptIsOwn(cfg: Config, s: State, w: WithdrawalId, success: bool)
    requires Sound(cfg.wire) && Inv(cfg, s) && InStatus(cfg, s.t, w, Broadcast) && s.t.withdrawals[w].txHash.Some?
    requires FinalReceipt(cfg.wire, s.node, s.t.withdrawals[w].txHash.value, success)
    ensures OnChain(cfg, s.t, w) && Final(s, s.t.attempts[w].nonce, RawOf(s.t, w), success)
  {
    assert s.t.withdrawals[w].Claimed();
    assert OnChain(cfg, s.t, w);
    var own := RawOf(s.t, w);
    assert Persisted(cfg, s.t, w, own);
    var n :| n in s.node.mined && IsReceipt(cfg.wire, s.node, n, s.t.withdrawals[w].txHash.value)
      && s.node.mined[n].block <= s.node.fin && s.node.mined[n].ok == success;
    assert s.node.mined[n].raw == own;
    assert Owned(cfg, s, n, own);
  }

  // ---- every step ----

  lemma NextKeepsInv(cfg: Config, s: State, step: Step, s': State)
    requires Sound(cfg.wire) && Inv(cfg, s) && Next(cfg, s, step, s')
    ensures Inv(cfg, s')
  {
    match step
    case ListNone => ListStep(cfg, s, step, s');
    case Resume(_) => ListStep(cfg, s, step, s');
    case ClaimNext(w) => ClaimStep(cfg, s, w);
    case Assemble(_) => ProcOnly(cfg, s, s');
    case Persist => PersistStep(cfg, s);
    case Send(reply) => SendStep(cfg, s, reply, s');
    case Mark => StatusStep(cfg, s, MarkBroadcast(s.proc.w), s.proc.w);
    case ReadReceipt(w, success) => ReceiptIsOwn(cfg, s, w, success); ProcOnly(cfg, s, s');
    case SettleRead(now) => StatusStep(cfg, s, Settle(s.proc.w, s.proc.success, now), s.proc.w);
    case Crash => ProcOnly(cfg, s, s');
    case Other(op) => OtherStep(cfg, s, op);
    case Mine(_) => ChainStep(cfg, s, step, s');
    case Reorg => ChainStep(cfg, s, step, s');
    case Finalize => ChainStep(cfg, s, step, s');
  }

  lemma ProcOnly(cfg: Config, s: State, s': State)
    requires Inv(cfg, s) && s' == s.(proc := s'.proc) && ProcOk(cfg, s')
    ensures Inv(cfg, s')
  {
    OwnedOnlyNode(cfg, s, s');
    forall x: WithdrawalId | OnChain(cfg, s'.t, x) ensures OutcomeOf(s', x) { assert OutcomeOf(s, x); }
  }

  /** Listing finds the signed row if there is one: stored bytes always decode. */
  lemma ListStep(cfg: Config, s: State, step: Step, s': State)
    requires Inv(cfg, s) && (step.ListNone? || step.Resume?) && Next(cfg, s, step, s')
    ensures Inv(cfg, s')
  {
    forall w: WithdrawalId | OnChain(cfg, s.t, w)
      ensures StoredBytes(s.t, w).Some?
      ensures StoredBytes(s.t, w).value == [] ==> s.t.attempts[w].signedTx == None
      ensures StoredBytes(s.t, w).value != [] ==> Persisted(cfg, s.t, w, StoredBytes(s.t, w).value)
    {
      if s.t.attempts[w].signedTx.Some? {
        assert Persisted(cfg, s.t, w, RawOf(s.t, w));
        PersistedRaw(cfg, s.t, w, RawOf(s.t, w));
      }
    }
    ProcOnly(cfg, s, s');
  }

  /** In every state of every run that starts with a wallet no older than the seeded nonce, the invariant holds. */
  lemma {:induction false} AlwaysInv(cfg: Config, run: seq<State>, i: nat)
    requires Sound(cfg.wire) && IsRun(cfg, run) && run[0].node.first <= cfg.start && i < |run|
    ensures Inv(cfg, run[i])
  {
    if i > 0 {
      AlwaysInv(cfg, run, i - 1);
      assert Steps(cfg, run[i - 1], run[i - 1 + 1]);
      var step :| Next(cfg, run[i - 1], step, run[i]);
      NextKeepsInv(cfg, run[i - 1], step, run[i]);
    }
  }
}
