/**
  The outbox and the journal are exact logs of state, and an on-chain transfer is credited at most
  once however often it is observed, orphaned and observed again.
 */
module Records {
  import opened Domain
  import opened Ledger

  // ---- the outbox ----

  /** How many copies of an event the rows of the database call for. */
  function Expected(t: Tables, e: Event): nat {
    match e
    case ApprovalRequired(w) =>
            Once(w < |t.withdrawals|
            && (t.withdrawals[w].status == AwaitingApproval || t.withdrawals[w].approvedBy.Some?))
    case WithdrawalApproved(w) => Once(w < |t.withdrawals| && t.withdrawals[w].status != AwaitingApproval)
    case WithdrawalConfirmed(w) => Once(w < |t.withdrawals| && t.withdrawals[w].status == Confirmed)
    case WithdrawalFailed(w) => Once(w < |t.withdrawals| && t.withdrawals[w].status == Failed)
    case WithdrawalStuck(w) => Once(w < |t.withdrawals| && t.withdrawals[w].stuckAlerted)
    case DepositPending(d) => Once(d < |t.deposits|)
    case DepositOrphaned(d) => Once(d < |t.deposits| && t.deposits[d].state == Orphaned)
    case DepositCredited(d) => Once(d < |t.deposits| && t.deposits[d].state == Credited)
  }

  function Once(b: bool): nat { if b then 1 else 0 }

  ghost predicate OutboxExact(t: Tables) { forall e :: multiset(t.outbox)[e] == Expected(t, e) }

  /** The event a transaction writes to the outbox, in the same commit. */
  function Emitted(t: Tables, op: Op): Option<Event>
    requires Check(t, op) == None
  {
    match op
    case RequestWithdrawal(_, _, _, amount, _, _, threshold, _, _) =>
      Some(if amount <= threshold then WithdrawalApproved(|t.withdrawals|) else ApprovalRequired(|t.withdrawals|))
    case Approve(w, _) => Some(WithdrawalApproved(w))
    case Settle(w, success, _) => Some(if success then WithdrawalConfirmed(w) else WithdrawalFailed(w))
    case AlertStuck(w) => Some(WithdrawalStuck(w))
    case Observe(_) => Some(DepositPending(|t.deposits|))
    case Orphan(d) => Some(Event.DepositOrphaned(d))
    case Credit(d, _) => Some(Event.DepositCredited(d))
    case _ => None
  }

  lemma OutboxStep(t: Tables, op: Op, e: Event)
    requires multiset(t.outbox)[e] == Expected(t, e) && Check(t, op) == None
    ensures multiset(Effect(t, op).outbox)[e] == Expected(Effect(t, op), e)
  {
    OutboxGrows(t, op);
    if e.DepositPending? || e.DepositOrphaned? || e.DepositCredited? {
      ExpectedDeposit(t, op, e);
    } else {
      ExpectedWithdrawal(t, op, e);
    }
    hide Check, Effect;
  }

  lemma OutboxGrows(t: Tables, op: Op)
    requires Check(t, op) == None
    ensures Effect(t, op).outbox == t.outbox + if Emitted(t, op) == None then [] else [Emitted(t, op).value]
  {
  }

  lemma ExpectedWithdrawal(t: Tables, op: Op, e: Event)
    requires Check(t, op) == None && !e.DepositPending? && !e.DepositOrphaned? && !e.DepositCredited?
    ensures Expected(Effect(t, op), e) == Expected(t, e) + Once(Emitted(t, op) == Some(e))
  {
    match op
    case RequestWithdrawal(_, _, _, _, _, _, _, _, _) => ExpectedRequest(t, op, e);
    case Settle(_, _, _) => ExpectedSettle(t, op, e);
    case Approve(_, _) => ExpectedProgress(t, op, e);
    case Claim(_, _) => ExpectedProgress(t, op, e);
    case MarkBroadcast(_) => ExpectedProgress(t, op, e);
    case AlertStuck(_) => ExpectedProgress(t, op, e);
    case _ => assert Effect(t, op).withdrawals == t.withdrawals && Emitted(t, op) != Some(e);
  }

  lemma ExpectedProgress(t: Tables, op: Op, e: Event)
    requires Check(t, op) == None && !e.DepositPending? && !e.DepositOrphaned? && !e.DepositCredited?
    requires op.Approve? || op.Claim? || op.MarkBroadcast? || op.AlertStuck?
    ensures Expected(Effect(t, op), e) == Expected(t, e) + Once(Emitted(t, op) == Some(e))
  {
  }

  lemma ExpectedRequest(t: Tables, op: Op, e: Event)
    requires Check(t, op) == None && op.RequestWithdrawal? && !e.DepositPending? && !e.DepositOrphaned?
    requires !e.DepositCredited?
    ensures Expected(Effect(t, op), e) == Expected(t, e) + Once(Emitted(t, op) == Some(e))
  {
  }

  lemma ExpectedSettle(t: Tables, op: Op, e: Event)
    requires Check(t, op) == None && op.Settle? && !e.DepositPending? && !e.DepositOrphaned? && !e.DepositCredited?
    ensures Expected(Effect(t, op), e) == Expected(t, e) + Once(Emitted(t, op) == Some(e))
  {
  }

  lemma ExpectedDeposit(t: Tables, op: Op, e: Event)
    requires Check(t, op) == None && (e.DepositPending? || e.DepositOrphaned? || e.DepositCredited?)
    ensures Expected(Effect(t, op), e) == Expected(t, e) + Once(Emitted(t, op) == Some(e))
  {
    hide Check, Effect, Expected, Emitted;
    match op
    case Observe(_) => ExpectedObserve(t, op, e);
    case PromoteSafe(_, _) => ExpectedMoved(t, op, e);
    case PromoteFinalized(_, _) => ExpectedMoved(t, op, e);
    case Orphan(_) => ExpectedMoved(t, op, e);
    case Credit(_, _) => ExpectedMoved(t, op, e);
    case _ => ExpectedElsewhere(t, op, e);
  }

  lemma ExpectedElsewhere(t: Tables, op: Op, e: Event)
    requires Check(t, op) == None && (e.DepositPending? || e.DepositOrphaned? || e.DepositCredited?)
    requires !op.Observe? && !op.PromoteSafe? && !op.PromoteFinalized? && !op.Orphan? && !op.Credit?
    ensures Expected(Effect(t, op), e) == Expected(t, e) + Once(Emitted(t, op) == Some(e))
  {
    assert Effect(t, op).deposits == t.deposits && Emitted(t, op) != Some(e);
    hide Check, Effect;
  }

  lemma ExpectedObserve(t: Tables, op: Op, e: Event)
    requires Check(t, op) == None && op.Observe? && (e.DepositPending? || e.DepositOrphaned? || e.DepositCredited?)
    ensures Expected(Effect(t, op), e) == Expected(t, e) + Once(Emitted(t, op) == Some(e))
  {
  }

  lemma ExpectedMoved(t: Tables, op: Op, e: Event)
    requires Check(t, op) == None && (op.PromoteSafe? || op.PromoteFinalized? || op.Orphan? || op.Credit?)
    requires e.DepositPending? || e.DepositOrphaned? || e.DepositCredited?
    ensures Expected(Effect(t, op), e) == Expected(t, e) + Once(Emitted(t, op) == Some(e))
  {
  }

  // ---- the journal ----

  predicate JournalExact(t: Tables) { CausesUnique(t.journal) && CausesJustified(t) && StatesJournaled(t) }

  /** UNIQUE(cause_type, cause_id). */
  predicate CausesUnique(journal: seq<Entry>) {
    forall i, j :: 0 <= i < j < |journal| ==> journal[i].cause != journal[j].cause
  }

  predicate CausesJustified(t: Tables) { forall c :: c in Causes(t.journal) ==> Justified(t, c) }

  /** Every settled withdrawal and every credited deposit has its entry. */
  predicate StatesJournaled(t: Tables) {
    && (forall w :: 0 <= w < |t.withdrawals| && t.withdrawals[w].Settled() ==>
          SettleCause(w, t.withdrawals[w].status == Confirmed) in Causes(t.journal))
    && (forall d :: 0 <= d < |t.deposits| && t.deposits[d].state == Credited ==> DepositCredit(d) in Causes(t.journal))
  }

  /** A settlement, failure or credit entry is there only because its row says so. */
  predicate Justified(t: Tables, c: Cause) {
    match c
    case InternalTransfer(_) => true
    case WithdrawalHold(_) => true
    case WithdrawalSettlement(w) => w < |t.withdrawals| && t.withdrawals[w].status == Confirmed
    case WithdrawalFailure(w) => w < |t.withdrawals| && t.withdrawals[w].status == Failed
    case DepositCredit(d) => d < |t.deposits| && t.deposits[d].state == Credited
  }

  /** The cause a transaction journals, if it posts. */
  function Journaled(op: Op): Option<Cause> {
    match op
    case InternalTransfer(_, _, _, _, _, key, _) => Some(Cause.InternalTransfer(key))
    case RequestWithdrawal(_, _, _, _, _, _, _, key, _) => Some(WithdrawalHold(key))
    case Settle(w, success, _) => Some(SettleCause(w, success))
    case Credit(d, _) => Some(DepositCredit(d))
    case _ => None
  }

  lemma JournalGrows(t: Tables, op: Op)
    requires Check(t, op) == None
    ensures match Journaled(op)
            case None => Effect(t, op).journal == t.journal
            case Some(c) =>
              && c !in Causes(t.journal)
              && |Effect(t, op).journal| == |t.journal| + 1
              && Effect(t, op).journal[..|t.journal|] == t.journal
              && Effect(t, op).journal[|t.journal|].cause == c
              && Causes(Effect(t, op).journal) == Causes(t.journal) + {c}
  {
    if Journaled(op).Some? {
      var more := Effect(t, op).journal;
      assert more == t.journal + [more[|t.journal|]];
      CausesAppend(t.journal, more[|t.journal|]);
    }
  }

  /** Settled withdrawals and credited or orphaned deposits stay; a row changes state only by its own transaction. */
  lemma RowsStep(t: Tables, op: Op)
    requires Check(t, op) == None
    ensures |Effect(t, op).withdrawals| >= |t.withdrawals| && |Effect(t, op).deposits| >= |t.deposits|
    ensures forall w :: 0 <= w < |t.withdrawals| && t.withdrawals[w].Settled() ==>
              Effect(t, op).withdrawals[w].status == t.withdrawals[w].status
    ensures forall w :: 0 <= w < |Effect(t, op).withdrawals| && Effect(t, op).withdrawals[w].Settled() ==>
              || (w < |t.withdrawals| && Effect(t, op).withdrawals[w].status == t.withdrawals[w].status)
              || (op.Settle? && op.w == w && (Effect(t, op).withdrawals[w].status == Confirmed <==> op.success))
    ensures op.Settle? ==>
              op.w < |t.withdrawals|
                  && Effect(t, op).withdrawals[op.w].status == if op.success then Confirmed else Failed
    ensures forall d :: 0 <= d < |t.deposits| ==>
              && Effect(t, op).deposits[d].transfer == t.deposits[d].transfer
              && (t.deposits[d].state in {Credited, Orphaned} ==> Effect(t, op).deposits[d] == t.deposits[d])
    ensures forall d :: 0 <= d < |Effect(t, op).deposits| && Effect(t, op).deposits[d].state == Credited ==>
              (d < |t.deposits| && t.deposits[d].state == Credited) || (op.Credit? && op.d == d)
    ensures op.Credit? ==> op.d < |t.deposits| && Effect(t, op).deposits[op.d].state == Credited
  {
    WithdrawalRowsStep(t, op);
    DepositRowsStep(t, op);
    hide Check, Effect;
  }

  lemma WithdrawalRowsStep(t: Tables, op: Op)
    requires Check(t, op) == None
    ensures |Effect(t, op).withdrawals| >= |t.withdrawals|
    ensures forall w :: 0 <= w < |t.withdrawals| && t.withdrawals[w].Settled() ==>
              Effect(t, op).withdrawals[w].status == t.withdrawals[w].status
    ensures forall w :: 0 <= w < |Effect(t, op).withdrawals| && Effect(t, op).withdrawals[w].Settled() ==>
              || (w < |t.withdrawals| && Effect(t, op).withdrawals[w].status == t.withdrawals[w].status)
              || (op.Settle? && op.w == w && (Effect(t, op).withdrawals[w].status == Confirmed <==> op.success))
    ensures op.Settle? ==>
              op.w < |t.withdrawals|
                  && Effect(t, op).withdrawals[op.w].status == if op.success then Confirmed else Failed
  {
  }

  lemma DepositRowsStep(t: Tables, op: Op)
    requires Check(t, op) == None
    ensures |Effect(t, op).deposits| >= |t.deposits|
    ensures forall d :: 0 <= d < |t.deposits| ==>
              && Effect(t, op).deposits[d].transfer == t.deposits[d].transfer
              && (t.deposits[d].state in {Credited, Orphaned} ==> Effect(t, op).deposits[d] == t.deposits[d])
    ensures forall d :: 0 <= d < |Effect(t, op).deposits| && Effect(t, op).deposits[d].state == Credited ==>
              (d < |t.deposits| && t.deposits[d].state == Credited) || (op.Credit? && op.d == d)
    ensures op.Credit? ==> op.d < |t.deposits| && Effect(t, op).deposits[op.d].state == Credited
  {
  }

  lemma JournalStep(t: Tables, op: Op)
    requires JournalExact(t) && Check(t, op) == None
    ensures JournalExact(Effect(t, op))
  {
    UniqueStep(t, op);
    JustifiedStep(t, op);
    JournaledStep(t, op);
    hide Check, Effect;
  }

  lemma UniqueStep(t: Tables, op: Op)
    requires CausesUnique(t.journal) && Check(t, op) == None
    ensures CausesUnique(Effect(t, op).journal)
  {
    JournalGrows(t, op);
    var more := Effect(t, op).journal;
    hide Check, Effect;
    forall i, j | 0 <= i < j < |more| ensures more[i].cause != more[j].cause {
      assert more[i] == t.journal[i];
      assert t.journal[i].cause in Causes(t.journal);
    }
  }

  lemma JustifiedStep(t: Tables, op: Op)
    requires CausesJustified(t) && Check(t, op) == None
    ensures CausesJustified(Effect(t, op))
  {
    hide Check, Effect, Justified;
    JournalGrows(t, op);
    forall c | c in Causes(Effect(t, op).journal) ensures Justified(Effect(t, op), c) {
      assert c in Causes(t.journal) ==> Justified(t, c);
      JustifiedStays(t, op, c);
    }
  }

  lemma JustifiedStays(t: Tables, op: Op, c: Cause)
    requires Check(t, op) == None && (Justified(t, c) || Journaled(op) == Some(c))
    ensures Justified(Effect(t, op), c)
  {
    hide Check, Effect;
    RowsStep(t, op);
  }

  lemma JournaledStep(t: Tables, op: Op)
    requires StatesJournaled(t) && Check(t, op) == None
    ensures StatesJournaled(Effect(t, op))
  {
    JournalGrows(t, op);
    RowsStep(t, op);
    hide Check, Effect;
  }

  // ---- deposits by on-chain key ----

  /** The partial unique index: at most one row per key that is not orphaned. */
  predicate ActiveUnique(t: Tables) {
    forall d, d' :: (&& 0 <= d < |t.deposits| && 0 <= d' < |t.deposits|
                     && KeyOf(t.deposits[d].transfer) == KeyOf(t.deposits[d'].transfer)
                     && t.deposits[d].state != Orphaned && t.deposits[d'].state != Orphaned) ==> d == d'
  }

  lemma ActiveStep(t: Tables, op: Op)
    requires ActiveUnique(t) && Check(t, op) == None
    ensures ActiveUnique(Effect(t, op))
  {
    RowsStep(t, op);
    var t' := Effect(t, op);
    if op.Observe? {
      assert !ActiveKey(t, KeyOf(op.transfer));
      assert t'.deposits == t.deposits + [Deposit(op.transfer, Observed)];
    }
    hide Check, Effect;
    forall d, d' | 0 <= d < |t'.deposits| && 0 <= d' < |t'.deposits|
                   && KeyOf(t'.deposits[d].transfer) == KeyOf(t'.deposits[d'].transfer)
                   && t'.deposits[d].state != Orphaned && t'.deposits[d'].state != Orphaned
      ensures d == d'
    {
      if d < |t.deposits| && d' < |t.deposits| {
        assert t.deposits[d].state != Orphaned && t.deposits[d'].state != Orphaned;
      }
    }
  }

  ghost predicate Exact(t: Tables) { OutboxExact(t) && JournalExact(t) && ActiveUnique(t) }

  lemma ExactStep(t: Tables, op: Op)
    requires Exact(t)
    ensures Exact(Apply(t, op))
  {
    if Check(t, op) == None {
      JournalStep(t, op);
      ActiveStep(t, op);
      forall e ensures multiset(Effect(t, op).outbox)[e] == Expected(Effect(t, op), e) {
        assert multiset(t.outbox)[e] == Expected(t, e);
        OutboxStep(t, op, e);
      }
    }
  }

  /** In every history the outbox and the journal hold exactly what the rows call for. */
  lemma {:induction false} AlwaysExact(t: Tables, ops: seq<Op>)
    requires Fresh(t)
    ensures Exact(Run(t, ops))
  {
    if ops != [] {
      AlwaysExact(t, ops[..|ops| - 1]);
      ExactStep(Run(t, ops[..|ops| - 1]), ops[|ops| - 1]);
    }
  }

  /**
    At most one row per on-chain key is ever credited, and it has exactly one deposit_credit
    entry and one deposit.credited event.
   */
  lemma CreditedAtMostOnce(t: Tables, ops: seq<Op>, d: DepositId) returns (entry: nat)
    requires Fresh(t)
    requires d < |Run(t, ops).deposits| && Run(t, ops).deposits[d].state == Credited
    ensures forall d' :: 0 <= d' < |Run(t, ops).deposits| && Run(t, ops).deposits[d'].state == Credited ==>
              KeyOf(Run(t, ops).deposits[d'].transfer) == KeyOf(Run(t, ops).deposits[d].transfer) ==> d' == d
    ensures entry < |Run(t, ops).journal|
    ensures forall i :: 0 <= i < |Run(t, ops).journal| ==>
            (Run(t, ops).journal[i].cause == DepositCredit(d) <==> i == entry)
    ensures multiset(Run(t, ops).outbox)[Event.DepositCredited(d)] == 1
  {
    AlwaysExact(t, ops);
    var s := Run(t, ops);
    assert DepositCredit(d) in Causes(s.journal);
    entry :| 0 <= entry < |s.journal| && s.journal[entry].cause == DepositCredit(d);
    assert multiset(s.outbox)[Event.DepositCredited(d)] == Expected(s, Event.DepositCredited(d));
  }

  /** Credited and orphaned are terminal, and no row is ever lost. */
  lemma {:induction false} TerminalStates(t: Tables, ops: seq<Op>, d: DepositId)
    requires d < |t.deposits|
    ensures d < |Run(t, ops).deposits|
    ensures Run(t, ops).deposits[d].transfer == t.deposits[d].transfer
    ensures t.deposits[d].state in {Credited, Orphaned} ==> Run(t, ops).deposits[d] == t.deposits[d]
  {
    if ops != [] {
      var s, op := Run(t, ops[..|ops| - 1]), ops[|ops| - 1];
      TerminalStates(t, ops[..|ops| - 1], d);
      if Check(s, op) == None { RowsStep(s, op); }
      hide Check, Effect;
    }
  }

  /** A finalized tag at or above the deposit's block was polled for its chain. */
  predicate TagPolled(ops: seq<Op>, x: Transfer) {
    exists i :: 0 <= i < |ops| && ops[i].PromoteFinalized? && ops[i].chain == x.chain && x.block <= ops[i].tag
  }

  /** No deposit is finalized, let alone credited, unless its block was at or below a polled finalized tag. */
  lemma {:induction false} CreditedOnlyFinal(t: Tables, ops: seq<Op>, d: DepositId)
    requires Fresh(t)
    requires d < |Run(t, ops).deposits| && Run(t, ops).deposits[d].state in {Finalized, Credited}
    ensures TagPolled(ops, Run(t, ops).deposits[d].transfer)
  {
    if ops != [] {
      var before, op := ops[..|ops| - 1], ops[|ops| - 1];
      var s := Run(t, before);
      if Check(s, op) == None { FinalizedStep(s, op, d); }
      if d < |s.deposits| && s.deposits[d].state in {Finalized, Credited} {
        CreditedOnlyFinal(t, before, d);
        assert forall i :: 0 <= i < |before| ==> ops[i] == before[i];
      } else {
        assert ops[|ops| - 1] == op;
      }
      hide Check, Effect;
    }
  }

  lemma FinalizedStep(t: Tables, op: Op, d: DepositId)
    requires Check(t, op) == None && d < |Effect(t, op).deposits|
    requires Effect(t, op).deposits[d].state in {Finalized, Credited}
    ensures d < |t.deposits| && Effect(t, op).deposits[d].transfer == t.deposits[d].transfer
    ensures t.deposits[d].state in {Finalized, Credited}
         || (op.PromoteFinalized? && op.chain == t.deposits[d].transfer.chain && t.deposits[d].transfer.block <= op.tag)
  {
  }

  // ---- the approval gate ----

  predicate ApprovedIn(ops: seq<Op>, w: WithdrawalId, actor: string) {
    exists j :: 0 <= j < |ops| && ops[j] == Approve(w, actor)
  }

  /** row is the request op made, with whatever progress it has had since. */
  predicate RequestedBy(op: Op, row: Withdrawal) {
    && op.RequestWithdrawal?
    && row.customer == op.customer && row.chain == op.chain && row.asset == op.asset && row.amount == op.amount
        && row.destination == op.destination
    && (row.status == AwaitingApproval || row.approvedBy.Some? ==> row.amount > op.threshold)
    && (row.status != AwaitingApproval && row.approvedBy == None ==> row.amount <= op.threshold)
  }

  /**
    Every withdrawal is exactly one committed request, never altered in customer, chain, asset,
    amount or destination; it leaves approval only if it was at or below the threshold when
    requested, or by an approval naming the actor on the row.
   */
  lemma {:induction false} ApprovalGate(t: Tables, ops: seq<Op>, w: WithdrawalId) returns (i: nat)
    requires Fresh(t) && w < |Run(t, ops).withdrawals|
    ensures i < |ops| && Check(Run(t, ops[..i]), ops[i]) == None && |Run(t, ops[..i]).withdrawals| == w
    ensures RequestedBy(ops[i], Run(t, ops).withdrawals[w])
    ensures Run(t, ops).withdrawals[w].approvedBy.Some? ==>
            ApprovedIn(ops, w, Run(t, ops).withdrawals[w].approvedBy.value)
  {
    assert ops != [];
    var before, op := ops[..|ops| - 1], ops[|ops| - 1];
    var s := Run(t, before);
    if w < |s.withdrawals| {
      i := ApprovalGate(t, before, w);
      assert before[..i] == ops[..i] && before[i] == ops[i];
      if Check(s, op) == None { GateStep(s, op, w); }
      hide Check, Effect;
      var row, row' := s.withdrawals[w], Run(t, ops).withdrawals[w];
      assert row.approvedBy.Some? ==>
          ApprovedIn(ops, w, row.approvedBy.value) by { ApprovedLater(before, op, w, row.approvedBy); }
      if row'.approvedBy != row.approvedBy { assert ops[|ops| - 1] == Approve(w, row'.approvedBy.value); }
    } else {
      RequestStep(s, op, w);
      i := |ops| - 1;
    }
  }

  lemma ApprovedLater(ops: seq<Op>, op: Op, w: WithdrawalId, actor: Option<string>)
    requires actor.Some? ==> ApprovedIn(ops, w, actor.value)
    ensures actor.Some? ==> forall more :: |more| == |ops| + 1 && more[..|ops|] == ops ==>
            ApprovedIn(more, w, actor.value)
  {
    if actor.Some? {
      var j :| 0 <= j < |ops| && ops[j] == Approve(w, actor.value);
      forall more: seq<Op> | |more| == |ops| + 1 && more[..|ops|] == ops ensures ApprovedIn(more, w, actor.value) {
        assert more[j] == more[..|ops|][j];
      }
    }
  }

  /** A transaction keeps a withdrawal's terms; only its approval moves it out of approval, and names who approved. */
  lemma GateStep(t: Tables, op: Op, w: WithdrawalId)
    requires Check(t, op) == None && w < |t.withdrawals|
    ensures w < |Effect(t, op).withdrawals|
    ensures var row, row' := t.withdrawals[w], Effect(t, op).withdrawals[w];
            && row'.customer == row.customer && row'.chain == row.chain && row'.asset == row.asset
            && row'.amount == row.amount && row'.destination == row.destination
            && (if op.Approve? && op.w == w
                then row.status == AwaitingApproval && row'.status == Approved && row'.approvedBy == Some(op.actor)
                else
                  && row'.approvedBy == row.approvedBy
                  && (row'.status == AwaitingApproval <==> row.status == AwaitingApproval))
  {
  }

  lemma RequestStep(t: Tables, op: Op, w: WithdrawalId)
    requires w >= |t.withdrawals| && w < |Apply(t, op).withdrawals|
    ensures Check(t, op) == None && |t.withdrawals| == w
    ensures RequestedBy(op, Apply(t, op).withdrawals[w]) && Apply(t, op).withdrawals[w].approvedBy == None
  {
  }
}
