/**
  The broadcaster process as code: every method call of it, whatever fails or commits ambiguously
  and whatever other processes and the chain do meanwhile, is a run of the state machine of module
  Protocol. trace is that run, so everything proved about runs holds of the code.
 */
module Broadcaster {
  import opened Domain
  import opened Ledger
  import opened Text
  import opened Query
  import opened Protocol
  import opened ProtocolProof
  import opened Payouts
  import opened Progress
  import opened Repositories

  // ---- extending a run ----

  ghost function Last(trace: seq<State>): State
    requires trace != []
  {
    trace[|trace| - 1]
  }

  lemma Extended(cfg: Config, trace: seq<State>, step: Step, s': State)
    requires SafeRun(cfg, trace) && trace != [] && Next(cfg, Last(trace), step, s')
    ensures SafeRun(cfg, trace + [s'])
  {
    hide Next, Init;
    var run := trace + [s'];
    forall i | 0 <= i < |run| - 1 ensures Steps(cfg, run[i], run[i + 1]) {
      if i < |trace| - 1 {
        assert Steps(cfg, trace[i], trace[i + 1]);
      } else {
        assert Next(cfg, run[i], step, run[i + 1]);
      }
    }
  }

  lemma NowInv(cfg: Config, trace: seq<State>)
    requires SafeRun(cfg, trace)
    ensures trace != [] && Inv(cfg, Last(trace)) && Sound(cfg.wire)
  {
    AlwaysInv(cfg, trace, |trace| - 1);
  }

  /** Broadcast, confirmed and failed withdrawals of the chain. */
  function TallyOf(chain: Chain, t: Tables): (nat, nat, nat) {
    (Count(chain, {Broadcast}, t), Count(chain, {Confirmed}, t), Count(chain, {Failed}, t))
  }

  predicate KeepsAlerts(t: Tables, t': Tables) {
    forall w: WithdrawalId :: w < |t.withdrawals| && t.withdrawals[w].stuckAlerted ==>
            w < |t'.withdrawals| && t'.withdrawals[w].stuckAlerted
  }

  /** Somebody else went from t to t'. */
  ghost predicate Apart(cfg: Config, t: Tables, t': Tables) {
    KeepsRows(cfg, t, t') && TallyOf(cfg.chain, t') == TallyOf(cfg.chain, t) && KeepsAlerts(t, t')
  }

  lemma ApartTrans(cfg: Config, a: Tables, b: Tables, c: Tables)
    requires Apart(cfg, a, b) && Apart(cfg, b, c)
    ensures Apart(cfg, a, c)
  {
    hide TallyOf;
    assert forall w: WithdrawalId :: OnChain(cfg, a, w) ==> SameRow(cfg, a, b, w) && SameRow(cfg, b, c, w);
  }

  /** The resume set is complete: with at most one signed row and decodable bytes, the limit of 50 never hides it. */
  lemma ListingComplete(cfg: Config, s: State, ages: map<nat, nat>, listed: seq<nat>, w: WithdrawalId)
    requires Inv(cfg, s) && OldestFirst(ages, listed, 50)
    requires forall x: nat :: x in ages <==> OnChain(cfg, s.t, x) && s.t.withdrawals[x].status == Signed
    requires w in ages
    ensures listed == [w] && StoredBytes(s.t, w).Some?
  {
    assert forall x: nat, y: nat :: x in ages && y in ages ==> x == y;
    assert ages.Keys == {w};
    assert |ages| == |ages.Keys|;
    if s.t.attempts[w].signedTx.Some? {
      assert Persisted(cfg, s.t, w, RawOf(s.t, w));
      PersistedRaw(cfg, s.t, w, RawOf(s.t, w));
    }
  }

  /** What another process's transaction leaves alone. */
  lemma OtherFacts(cfg: Config, s: State, op: Op)
    requires Inv(cfg, s) && !BroadcasterOnly(cfg, s.t, op)
    ensures Next(cfg, s, Step.Other(op), s.(t := Apply(s.t, op)))
    ensures Apart(cfg, s.t, Apply(s.t, op))
    ensures Backlog(cfg.chain, Apply(s.t, op))
            <= Backlog(cfg.chain, s.t) + if AddsWork(cfg.chain, s.t, op) then 1 else 0
    ensures cfg.chain in s.t.nextNonce && cfg.chain in Apply(s.t, op).nextNonce
    ensures Apply(s.t, op).nextNonce[cfg.chain] == s.t.nextNonce[cfg.chain]
  {
    hide Inv, Check, Effect, Apart, Backlog, BroadcasterOnly, AddsWork;
    InvBasics(cfg, s);
    if Check(s.t, op) == None {
      OtherCommitted(cfg, s.t, op);
    } else {
      ApartSame(cfg, s.t);
    }
  }

  lemma OtherCommitted(cfg: Config, t: Tables, op: Op)
    requires Attempted(t) && cfg.chain in t.nextNonce && !BroadcasterOnly(cfg, t, op) && Check(t, op) == None
    ensures Apart(cfg, t, Effect(t, op))
    ensures Backlog(cfg.chain, Effect(t, op)) <= Backlog(cfg.chain, t) + if AddsWork(cfg.chain, t, op) then 1 else 0
    ensures cfg.chain in Effect(t, op).nextNonce && Effect(t, op).nextNonce[cfg.chain] == t.nextNonce[cfg.chain]
  {
    hide Check, Effect, KeepsRows, Backlog, TallyOf, KeepsAlerts, BroadcasterOnly, AddsWork, Attempted;
    OtherUntouched(cfg, t, op);
    BacklogStep(cfg.chain, t, op);
    OtherTally(cfg, t, op);
    AlertsStay(t, op);
  }

  lemma InvBasics(cfg: Config, s: State)
    requires Inv(cfg, s)
    ensures Attempted(s.t) && cfg.chain in s.t.nextNonce
    ensures s.proc.Settling? ==> OnChain(cfg, s.t, s.proc.w) && s.t.withdrawals[s.proc.w].status == Broadcast
    ensures forall w: WithdrawalId ::
            w < |s.t.withdrawals| && s.t.withdrawals[w].chain == cfg.chain && s.t.withdrawals[w].status == Broadcast ==>
              OnChain(cfg, s.t, w) && s.t.withdrawals[w].txHash.Some?
  {
    forall w: WithdrawalId | w < |s.t.withdrawals| && s.t.withdrawals[w].chain == cfg.chain
            && s.t.withdrawals[w].status == Broadcast
      ensures OnChain(cfg, s.t, w) && s.t.withdrawals[w].txHash.Some?
    {
      assert OnChain(cfg, s.t, w) && Persisted(cfg, s.t, w, RawOf(s.t, w));
    }
  }

  lemma OtherTally(cfg: Config, t: Tables, op: Op)
    requires !BroadcasterOnly(cfg, t, op) && Check(t, op) == None
    ensures TallyOf(cfg.chain, Effect(t, op)) == TallyOf(cfg.chain, t)
  {
    CountStep(cfg.chain, {Broadcast}, t, op);
    CountStep(cfg.chain, {Confirmed}, t, op);
    CountStep(cfg.chain, {Failed}, t, op);
    hide Effect, Count;
  }

  lemma AlertsStay(t: Tables, op: Op)
    requires Check(t, op) == None
    ensures KeepsAlerts(t, Effect(t, op))
  {
  }

  // ---- the RPC client and the signer ----

  class Client {
    const wire: Wire
    var node: Node

    constructor (wire: Wire, node: Node)
      ensures this.wire == wire && this.node == node
    {
      this.wire, this.node := wire, node;
    }

    /** eth_sendRawTransaction: any reply the contract allows. */
    method SendRawTransaction(raw: Bytes) returns (reply: Reply)
      modifies this
      ensures Replies(wire, old(node), raw, reply, node)
    {
      var message: string := *;
      match wire.parse(raw)
      case None =>
        if IsAlreadyKnownError(message) { message := []; NoMessage(); }
        reply := Refused(message);
      case Some(p) =>
        var occupied := Occupied(node, p.nonce);
        var admitted, answered: bool := *, *;
        if admitted && node.count <= p.nonce {
          node := Admit(node, p.nonce, raw);
          if answered { return Accepted; }
        }
        if IsAlreadyKnownError(message) && !occupied { message := []; NoMessage(); }
        reply := Refused(message);
    }

    /** Build, sign and assemble: arbitrary bytes that decode to the payment asked for, or an error. */
    method BuildAndSign(payment: Payment) returns (signed: Option<Bytes>)
      ensures signed.Some? ==> signed.value != [] && wire.parse(signed.value) == Some(payment)
    {
      var raw: Bytes := *;
      if raw != [] && wire.parse(raw) == Some(payment) { signed := Some(raw); } else { signed := None; }
    }

    /** eth_getTransactionReceipt; not found is no error. */
    method TransactionReceipt(txHash: string) returns (failed: bool, receipt: Option<Receipt>)
      ensures !failed && receipt.Some? ==> HasReceipt(wire, node, txHash, receipt.value)
      ensures !failed && receipt == None ==> forall n: nat :: n in node.mined ==> !IsReceipt(wire, node, n, txHash)
    {
      failed, receipt := *, None;
      if n: nat :| n in node.mined && IsReceipt(wire, node, n, txHash) {
        receipt := Some(Receipt(node.mined[n].block, node.mined[n].ok));
      }
    }

    /** The header under the finalized tag. */
    method FinalizedBlock() returns (failed: bool, number: nat)
      ensures !failed ==> number == node.fin
    {
      failed, number := *, node.fin;
    }
  }

  /** The receipt, if any is given, still stands. */
  predicate Standing(wire: Wire, node: Node, receipt: Option<(string, Receipt)>) {
    receipt.Some? ==> HasReceipt(wire, node, receipt.value.0, receipt.value.1)
  }

  /** A final receipt is the transaction's only one, so the first read of it finds it. */
  lemma FinalReceiptIsOnly(cfg: Config, s: State, txHash: string)
    requires Sound(cfg.wire) && Inv(cfg, s)
    ensures forall ok :: FinalReceipt(cfg.wire, s.node, txHash, ok) ==>
              exists n: nat :: n in s.node.mined && IsReceipt(cfg.wire, s.node, n, txHash)
    ensures forall ok, r :: FinalReceipt(cfg.wire, s.node, txHash, ok) && HasReceipt(cfg.wire, s.node, txHash, r) ==>
              r.block <= s.node.fin && r.ok == ok
  {
    hide Inv, Sound, HasReceipt;
    forall ok, r | FinalReceipt(cfg.wire, s.node, txHash, ok) && HasReceipt(cfg.wire, s.node, txHash, r)
      ensures r.block <= s.node.fin && r.ok == ok
    {
      FinalMatches(cfg, s, txHash, ok, r);
    }
  }

  lemma FinalMatches(cfg: Config, s: State, txHash: string, ok: bool, r: Receipt)
    requires Sound(cfg.wire) && Inv(cfg, s) && FinalReceipt(cfg.wire, s.node, txHash, ok)
    requires HasReceipt(cfg.wire, s.node, txHash, r)
    ensures r.block <= s.node.fin && r.ok == ok
  {
    assert NodeOk(cfg, s);
    hide Inv, NodeOk, Owned;
    var n :| n in s.node.mined && IsReceipt(cfg.wire, s.node, n, txHash) && s.node.mined[n].block <= s.node.fin
        && s.node.mined[n].ok == ok;
    var m :| m in s.node.mined && IsReceipt(cfg.wire, s.node, m, txHash) && s.node.mined[m].block == r.block
        && s.node.mined[m].ok == r.ok;
    MinedNonce(cfg, s, n);
    MinedNonce(cfg, s, m);
  }

  /** A mined transaction is at the nonce its bytes name. */
  lemma MinedNonce(cfg: Config, s: State, n: nat)
    requires NodeOk(cfg, s) && n in s.node.mined
    ensures cfg.wire.parse(s.node.mined[n].raw).Some? && cfg.wire.parse(s.node.mined[n].raw).value.nonce == n
  {
    assert Owned(cfg, s, n, s.node.mined[n].raw);
  }

  lemma StandingIsFinal(wire: Wire, node: Node, txHash: string, r: Receipt)
    requires HasReceipt(wire, node, txHash, r) && r.block <= node.fin
    ensures FinalReceipt(wire, node, txHash, r.ok)
  {
  }

  lemma NoMessage()
    ensures !IsAlreadyKnownError("")
  {
  }

  // ---- the process ----

  class Process {
    const cfg: Config
    const db: Database
    const client: Client
    /** How many approvals the rest of the system will still bring. */
    var arrivals: nat
    ghost var trace: seq<State>

    ghost predicate Valid()
      reads this, db, client
    {
      && SafeRun(cfg, trace) && trace != [] && client.wire == cfg.wire
      && Last(trace).t == db.Rows() && Last(trace).node == client.node
    }

    ghost function Proc(): Protocol.Proc
      reads this`trace
      requires trace != []
    {
      Last(trace).proc
    }

    /** What is left to broadcast, now or later. */
    ghost function Pending(): nat
      reads this`arrivals, db
    {
      Backlog(cfg.chain, db.Rows()) + arrivals
    }

    constructor (cfg: Config, db: Database, client: Client, arrivals: nat)
      requires SafeRun(cfg, [State(db.Rows(), client.node, Idle, [])]) && client.wire == cfg.wire
      ensures Valid() && Proc() == Idle && this.cfg == cfg && this.db == db && this.client == client
    {
      this.cfg, this.db, this.client, this.arrivals := cfg, db, client, arrivals;
      trace := [State(db.Rows(), client.node, Idle, [])];
    }

    ghost method Record(step: Step, s': State)
      requires SafeRun(cfg, trace) && trace != [] && Next(cfg, Last(trace), step, s')
      modifies this`trace
      ensures SafeRun(cfg, trace) && trace == old(trace) + [s']
    {
      Extended(cfg, trace, step, s');
      trace := trace + [s'];
    }

    /** The process dies, or gives up: what it held in memory is gone. */
    ghost method Forget()
      requires Valid()
      modifies this`trace
      ensures Valid() && old(trace) <= trace && Proc() == Idle
    {
      Record(Crash, Last(trace).(proc := Idle));
    }

    /** Another process attempts a transaction of its own. */
    method OtherTransaction(op: Op)
      requires Valid() && !BroadcasterOnly(cfg, db.Rows(), op)
      requires AddsWork(cfg.chain, db.Rows(), op) ==> arrivals > 0
      modifies this, db
      ensures Valid() && old(trace) <= trace && Proc() == old(Proc())
      ensures Apart(cfg, old(db.Rows()), db.Rows()) && Pending() <= old(Pending())
      ensures NextNonce() == old(NextNonce())
    {
      ghost var s := Last(trace);
      NowInv(cfg, trace);
      OtherFacts(cfg, s, op);
      hide Check, Effect, Next, Inv, Apart, SafeRun;
      if AddsWork(cfg.chain, db.Rows(), op) { arrivals := arrivals - 1; }
      db.Load(Apply(db.Rows(), op));
      Record(Step.Other(op), s.(t := db.Rows()));
    }

    ghost function NextNonce(): nat
      reads db
    {
      if cfg.chain in db.nextNonce then db.nextNonce[cfg.chain] else 0
    }

    /** The chain mines, reorganizes or finalizes; a receipt given as standing is not reorganized away. */
    method ChainMoves(standing: Option<(string, Receipt)>)
      requires Valid() && Standing(cfg.wire, client.node, standing)
      modifies this`trace, client
      ensures Valid() && old(trace) <= trace && Proc() == old(Proc())
      ensures Standing(cfg.wire, client.node, standing) && old(client.node).fin <= client.node.fin
    {
      ghost var s := Last(trace);
      hide SafeRun, HasReceipt;
      var ok: bool, node: Node := *, *;
      if !Standing(cfg.wire, node, standing) {
      } else if MineStep(client.node, ok, node) {
        client.node := node;
        Record(Mine(ok), s.(node := node));
      } else if ReorgStep(client.node, node) {
        client.node := node;
        Record(Reorg, s.(node := node));
      } else if FinalizeStep(client.node, node) {
        client.node := node;
        Record(Finalize, s.(node := node));
      }
    }

    /** Anything the rest of the world does between two statements of this process. */
    method Others(standing: Option<(string, Receipt)> := None)
      requires Valid() && Standing(cfg.wire, client.node, standing)
      modifies this, db, client
      ensures Valid() && old(trace) <= trace && Proc() == old(Proc())
      ensures Standing(cfg.wire, client.node, standing) && old(client.node).fin <= client.node.fin
      ensures Apart(cfg, old(db.Rows()), db.Rows()) && Pending() <= old(Pending())
      ensures NextNonce() == old(NextNonce())
    {
      var steps: int := *;
      ApartSame(cfg, db.Rows());
      if steps < 0 { return; }
      hide Check, Effect, Next, Apart, SafeRun, Apply, AddsWork, HasReceipt;
      for i := 0 to steps
        invariant Valid() && old(trace) <= trace && Proc() == old(Proc())
        invariant Standing(cfg.wire, client.node, standing) && old(client.node).fin <= client.node.fin
        invariant Apart(cfg, old(db.Rows()), db.Rows()) && Pending() <= old(Pending())
        invariant NextNonce() == old(NextNonce())
      {
        ghost var before := db.Rows();
        var op: Op, commits: bool := *, *;
        if commits && !BroadcasterOnly(cfg, db.Rows(), op) && (!AddsWork(cfg.chain, db.Rows(), op) || arrivals > 0) {
          OtherTransaction(op);
        } else {
          ChainMoves(standing);
          ApartSame(cfg, before);
        }
        ApartTrans(cfg, old(db.Rows()), before, db.Rows());
      }
    }

    /** w is broadcast, and the node has accepted its own bytes. */
    ghost predicate Delivered(w: WithdrawalId)
      reads db, client
    {
      InStatus(cfg, db.Rows(), w, Broadcast) && w in db.attempts && RawOf(db.Rows(), w) in client.node.accepted
    }

    /** The mark-broadcast transaction: it may fail, and its commit may be lost or go unreported. */
    method CommitMark(w: WithdrawalId) returns (failed: bool)
      requires Valid() && Proc() == Sent(w)
      modifies this`trace, db
      ensures Valid() && old(trace) <= trace && Proc() == Idle
      ensures NextNonce() == old(NextNonce()) && Pending() <= old(Pending())
      ensures !failed ==> Pending() < old(Pending()) && Delivered(w)
    {
      var begins, commits, reported: bool := *, *, *;
      hide Check, Effect, SafeRun, Inv, Backlog, Next, RawOf;
      if !begins { Forget(); return true; }
      var saved := db.Rows();
      var err := db.MarkBroadcast(w);
      if err.Some? { Forget(); return true; }
      if !commits { db.Load(saved); Forget(); return true; }
      ghost var s := Last(trace);
      NowInv(cfg, trace);
      MarkFacts(cfg, s, w);
      Record(Mark, s.(t := db.Rows(), proc := Idle));
      failed := !reported;
    }

    /** Sends the durable bytes, and marks the row broadcast when the node took them or says it knows them. */
    method SendAndFinalize(w: WithdrawalId, raw: Bytes) returns (failed: bool)
      requires Valid() && Proc() == Sending(w, raw)
      modifies this, db, client
      ensures Valid() && old(trace) <= trace && Proc() == Idle
      ensures NextNonce() == old(NextNonce()) && Pending() <= old(Pending())
      ensures !failed ==> Pending() < old(Pending()) && Delivered(w)
    {
      hide SafeRun, IsAlreadyKnownError, Apart, Backlog, Delivered, Replies, NextNonce;
      Others();
      ghost var s := Last(trace);
      var reply := client.SendRawTransaction(raw);
      var taken := reply.Accepted? || IsAlreadyKnownError(reply.message);
      Record(Send(reply), State(s.t, client.node, if taken then Sent(w) else Idle, s.log + [(w, raw)]));
      if !taken { return true; }
      Others();
      failed := CommitMark(w);
    }

    /** The record-signed transaction: the bytes and their hash, before anything is sent. */
    method CommitSigned(w: WithdrawalId, raw: Bytes) returns (failed: bool)
      requires Valid() && Proc() == Assembled(w, raw)
      modifies this`trace, db
      ensures Valid() && old(trace) <= trace && Proc() == if failed then Idle else Sending(w, raw)
      ensures NextNonce() == old(NextNonce()) && Pending() <= old(Pending())
    {
      var begins, commits, reported: bool := *, *, *;
      if !begins { Forget(); return true; }
      var saved := db.Rows();
      var txHash, signedTx := cfg.wire.hash(raw), HexEncode(raw);
      var err := db.RecordSignedTx(w, txHash, signedTx);
      if err.Some? { Forget(); return true; }
      if !commits { db.Load(saved); Forget(); return true; }
      ghost var s := Last(trace);
      BacklogStep(cfg.chain, s.t, RecordSigned(w, txHash, signedTx));
      assert db.nextNonce == s.t.nextNonce;
      hide Check, Effect, SafeRun, Backlog;
      Record(Persist, s.(t := db.Rows(), proc := Sending(w, raw)));
      if !reported { Forget(); }
      failed := !reported;
    }

    /** Build, sign and assemble, with nothing durable yet. */
    method AssembleSigned(w: WithdrawalId, payment: Payment) returns (signed: Option<Bytes>)
      requires Valid() && Proc() == Signing(w) && OnChain(cfg, db.Rows(), w) && payment == PaymentFor(db.Rows(), w)
      modifies this, db, client
      ensures Valid() && old(trace) <= trace && Proc() == if signed.Some? then Assembled(w, signed.value) else Idle
      ensures NextNonce() == old(NextNonce()) && Pending() <= old(Pending())
    {
      ghost var before := db.Rows();
      hide Check, Effect, Backlog, SafeRun, Apart, Next, KeepsRows, PaymentFor;
      Others();
      signed := client.BuildAndSign(payment);
      if signed == None { Forget(); return; }
      assert KeepsRows(cfg, before, db.Rows()) by { ApartKeeps(cfg, before, db.Rows()); }
      AssembleNext(cfg, before, Last(trace), w, signed.value);
      Record(Assemble(signed.value), Last(trace).(proc := Assembled(w, signed.value)));
    }

    /** Build, sign, assemble, persist, send: for a row that has no signed bytes yet. */
    method SignAndSend(w: WithdrawalId, payment: Payment) returns (failed: bool)
      requires Valid() && Proc() == Signing(w) && OnChain(cfg, db.Rows(), w) && payment == PaymentFor(db.Rows(), w)
      modifies this, db, client
      ensures Valid() && old(trace) <= trace && Proc() == Idle
      ensures NextNonce() == old(NextNonce()) && Pending() <= old(Pending())
      ensures !failed ==> Pending() < old(Pending()) && Delivered(w)
    {
      hide Check, Effect, Backlog, SafeRun, Apart, Next, Delivered, Pending, NextNonce;
      var signed := AssembleSigned(w, payment);
      if signed == None { return true; }
      Others();
      failed := CommitSigned(w, signed.value);
      if failed { return; }
      failed := SendAndFinalize(w, signed.value);
    }

    /** The claim transaction: a nonce for the oldest approved row, or nothing to claim. */
    method CommitClaim() returns (failed: bool, claim: Option<WithdrawalId>)
      requires Valid() && Proc() == NothingToResume
      modifies this`trace, db
      ensures Valid() && old(trace) <= trace && Pending() <= old(Pending())
      ensures claim.Some? ==> !failed && Proc() == Signing(claim.value) && OnChain(cfg, db.Rows(), claim.value)
      ensures claim.None? ==> Proc() == Idle
      ensures old(NextNonce()) <= NextNonce() <= old(NextNonce()) + 1
      ensures claim.Some? ==> NextNonce() == old(NextNonce()) + 1
      ensures !failed && claim.None? ==> NextNonce() == old(NextNonce()) && Backlog(cfg.chain, db.Rows()) == 0
    {
      var begins, commits, reported: bool := *, *, *;
      claim := None;
      hide Check, Effect, SafeRun, Backlog, Inv, Next;
      if !begins { Forget(); return true, None; }
      var saved := db.Rows();
      ghost var s := Last(trace);
      NowInv(cfg, trace);
      ghost var ages := db.ApprovedAges(cfg.chain);
      var r := db.ClaimApprovedWithdrawal(cfg.chain);
      if r.Err? { Forget(); return true, None; }
      if r.value.None? {
        NothingApproved(cfg, s, ages);
        Forget();
        return false, None;
      }
      if !commits { db.Load(saved); Forget(); return true, None; }
      var w := r.value.value;
      ClaimFacts(cfg, s, w);
      Record(ClaimNext(w), s.(t := db.Rows(), proc := Signing(w)));
      if !reported { Forget(); return true, None; }
      failed, claim := false, Some(w);
    }

    /** The listing that starts an iteration: a row to resume, its payment and stored bytes, or the right to claim. */
    method ListSigned() returns (failed: bool, found: Option<(WithdrawalId, Payment, Bytes)>)
      requires Valid() && Proc() == Idle
      modifies this`trace
      ensures Valid() && old(trace) <= trace
      ensures failed ==> found == None && Proc() == Idle
      ensures !failed && found.None? ==> Proc() == NothingToResume
      ensures found.Some? ==>
                var (w, payment, raw) := found.value;
                && OnChain(cfg, db.Rows(), w) && payment == PaymentFor(db.Rows(), w)
                && Proc() == if raw != [] then Sending(w, raw) else Signing(w)
    {
      var fails: bool := *;
      failed, found := fails, None;
      if fails { return; }
      hide Check, Effect, SafeRun, Inv, StoredBytes, RawOf, HexDecode, Next, ResumeListing, PaymentFor, Backlog;
      NowInv(cfg, trace);
      var rows := db.ListSignedWithdrawals(cfg.chain);
      ListedNext(cfg, Last(trace), db.SignedAges(cfg.chain), rows);
      if rows == [] {
        Record(ListNone, Last(trace).(proc := NothingToResume));
      } else {
        var payment := TakeUp(rows[0].0, rows[0].1);
        found := Some((rows[0].0, payment, rows[0].1));
      }
    }

    /** The first listed row becomes the process's own. */
    method TakeUp(w: WithdrawalId, raw: Bytes) returns (payment: Payment)
      requires Valid() && OnChain(cfg, db.Rows(), w)
      requires Next(cfg, Last(trace), Step.Resume(w),
              Last(trace).(proc := if raw != [] then Sending(w, raw) else Signing(w)))
      modifies this`trace
      ensures Valid() && old(trace) <= trace && payment == PaymentFor(db.Rows(), w)
      ensures Proc() == if raw != [] then Sending(w, raw) else Signing(w)
    {
      hide SafeRun, Next;
      payment := PaymentFor(db.Rows(), w);
      Record(Step.Resume(w), Last(trace).(proc := if raw != [] then Sending(w, raw) else Signing(w)));
    }

    /** The claiming half of an iteration, once nothing is left to resume. */
    method ClaimAndSend() returns (claimed: bool, failed: bool, ghost w: WithdrawalId)
      requires Valid() && Proc() == NothingToResume
      modifies this, db, client
      ensures Valid() && old(trace) <= trace && Proc() == Idle && Pending() <= old(Pending())
      ensures old(NextNonce()) <= NextNonce() <= old(NextNonce()) + 1
      ensures claimed && !failed ==> Pending() < old(Pending()) && Delivered(w)
      ensures !claimed && !failed ==> NextNonce() == old(NextNonce()) && Backlog(cfg.chain, db.Rows()) == 0
    {
      w := 0;
      hide Check, Effect, SafeRun, Inv, RawOf, Next, Apart, Backlog, Delivered;
      Others();
      var claim: Option<WithdrawalId>;
      failed, claim := CommitClaim();
      if claim.None? { return false, failed, 0; }
      w := claim.value;
      failed := SignAndSend(claim.value, PaymentFor(db.Rows(), claim.value));
      claimed := true;
    }

    /** A resumed row: its stored bytes are sent as they are; only a row without any is signed. */
    method Resume(w: WithdrawalId, payment: Payment, raw: Bytes) returns (failed: bool)
      requires Valid() && OnChain(cfg, db.Rows(), w) && payment == PaymentFor(db.Rows(), w)
      requires Proc() == if raw != [] then Sending(w, raw) else Signing(w)
      modifies this, db, client
      ensures Valid() && old(trace) <= trace && Proc() == Idle
      ensures NextNonce() == old(NextNonce()) && Pending() <= old(Pending())
      ensures !failed ==> Pending() < old(Pending()) && Delivered(w)
    {
      if raw != [] { failed := SendAndFinalize(w, raw); } else { failed := SignAndSend(w, payment); }
    }

    /**
      One iteration: resume the signed withdrawal if there is one, and only otherwise, and only if
      allowed, claim the oldest approved one; then carry it to broadcast.
     */
    method Execute(allowClaim: bool) returns (claimed: bool, failed: bool, ghost w: WithdrawalId)
      requires Valid() && Proc() == Idle
      modifies this, db, client
      ensures Valid() && old(trace) <= trace && Proc() == Idle && Pending() <= old(Pending())
      ensures old(NextNonce()) <= NextNonce() <= old(NextNonce()) + if allowClaim then 1 else 0
      ensures claimed && !failed ==> Pending() < old(Pending()) && Delivered(w)
      ensures !claimed && !failed ==> NextNonce() == old(NextNonce()) && Count(cfg.chain, {Signed}, db.Rows()) == 0
      ensures !claimed && !failed && allowClaim ==> Backlog(cfg.chain, db.Rows()) == 0
    {
      w := 0;
      hide Check, Effect, SafeRun, Inv, RawOf, Next, Apart, Backlog, Count, InStatus, Pending, NextNonce, Delivered,
          PaymentFor;
      Others();
      var found: Option<(WithdrawalId, Payment, Bytes)>;
      failed, found := ListSigned();
      if failed { return false, true, 0; }
      if found.Some? {
        failed := Resume(found.value.0, found.value.1, found.value.2);
        return true, failed, found.value.0;
      }
      claimed, failed, w := ClaimIfAllowed(allowClaim);
    }

    /** With nothing to resume: claim only if allowed. */
    method ClaimIfAllowed(allowClaim: bool) returns (claimed: bool, failed: bool, ghost w: WithdrawalId)
      requires Valid() && Proc() == NothingToResume
      modifies this, db, client
      ensures Valid() && old(trace) <= trace && Proc() == Idle && Pending() <= old(Pending())
      ensures old(NextNonce()) <= NextNonce() <= old(NextNonce()) + if allowClaim then 1 else 0
      ensures claimed && !failed ==> Pending() < old(Pending()) && Delivered(w)
      ensures !claimed && !failed ==> NextNonce() == old(NextNonce()) && Count(cfg.chain, {Signed}, db.Rows()) == 0
      ensures !claimed && !failed && allowClaim ==> Backlog(cfg.chain, db.Rows()) == 0
    {
      hide Check, Effect, SafeRun, Inv, Next, Backlog, Count, Delivered;
      if !allowClaim {
        NoneSignedNow();
        Forget();
        return false, false, 0;
      }
      claimed, failed, w := ClaimAndSend();
      if !claimed && !failed { SignedWithinBacklog(cfg.chain, db.Rows()); }
    }

    ghost method NoneSignedNow()
      requires Valid() && Proc() == NothingToResume
      ensures Count(cfg.chain, {Signed}, db.Rows()) == 0
    {
      NowInv(cfg, trace);
      NoneSigned(cfg, Last(trace));
    }

    /**
      The drain loop of one tick. It stops as soon as an iteration finds nothing or fails; with
      finitely many approvals still to arrive it always stops, after at most one iteration per
      withdrawal approved or signed, each of which delivered one.
     */
    method Drain(live: bool) returns (claimedCount: nat, failed: bool)
      requires Valid() && Proc() == Idle
      modifies this, db, client
      ensures Valid() && old(trace) <= trace && Proc() == Idle
      ensures claimedCount + Pending() <= old(Pending())
      ensures old(NextNonce()) <= NextNonce() && (!live ==> NextNonce() == old(NextNonce()))
      ensures !failed ==> Count(cfg.chain, {Signed}, db.Rows()) == 0
      ensures !failed && live ==> Backlog(cfg.chain, db.Rows()) == 0
    {
      claimedCount, failed := 0, false;
      hide Check, Effect, SafeRun, Count, Backlog;
      while true
        invariant Valid() && old(trace) <= trace && Proc() == Idle
        invariant claimedCount + Pending() <= old(Pending())
        invariant old(NextNonce()) <= NextNonce() && (!live ==> NextNonce() == old(NextNonce()))
        decreases Pending()
      {
        var claimed, err, _ := Execute(live);
        if err { return claimedCount, true; }
        if !claimed { return claimedCount, false; }
        claimedCount := claimedCount + 1;
      }
    }

    ghost function Tally(): (nat, nat, nat)
      reads db
    {
      TallyOf(cfg.chain, db.Rows())
    }

    /** A settlement transaction, from a receipt already read. */
    method CommitSettle(w: WithdrawalId, success: bool, now: Time) returns (failed: bool)
      requires Valid() && Proc() == Settling(w, success)
      modifies this`trace, db
      ensures Valid() && old(trace) <= trace && Proc() == Idle && NextNonce() == old(NextNonce())
      ensures Pending() == old(Pending())
      ensures OthersStand(cfg, old(db.Rows()), db.Rows(), w)
      ensures !failed ==> Tally() == TallyAfter(old(Tally()), success)
      ensures failed ==> Tally() == old(Tally()) || Tally() == TallyAfter(old(Tally()), success)
    {
      var begins, commits, reported: bool := *, *, *;
      hide Check, Effect, SafeRun, Backlog, TallyOf, Inv, Next, OthersStand;
      StandsSame(cfg, db.Rows(), w);
      if !begins { Forget(); return true; }
      var saved := db.Rows();
      ghost var s := Last(trace);
      NowInv(cfg, trace);
      var err := db.SettleWithdrawal(w, success, now);
      if err.Some? { Forget(); return true; }
      if !commits { db.Load(saved); Forget(); return true; }
      SettleFacts(cfg, s, w, success, now);
      Record(SettleRead(now), s.(t := db.Rows(), proc := Idle));
      failed := !reported;
    }

    /**
      The receipt, then the finalized header, with anything happening in between except that the
      receipt's block is replaced. Found means final at the second read; final before the first
      read means found.
     */
    method GetFinalizedReceipt(txHash: string) returns (failed: bool, found: bool, success: bool)
      requires Valid()
      modifies this, db, client
      ensures Valid() && old(trace) <= trace && Proc() == old(Proc())
      ensures Apart(cfg, old(db.Rows()), db.Rows()) && Pending() <= old(Pending()) && NextNonce() == old(NextNonce())
      ensures !failed && found ==> FinalReceipt(cfg.wire, client.node, txHash, success)
      ensures !failed ==> forall ok :: old(FinalReceipt(cfg.wire, client.node, txHash, ok)) ==> found && success == ok
    {
      hide SafeRun, Inv, Apart, Backlog, HasReceipt, FinalReceipt, IsReceipt;
      ghost var s := Last(trace);
      NowInv(cfg, trace);
      ApartSame(cfg, db.Rows());
      FinalReceiptIsOnly(cfg, s, txHash);
      var receipt;
      failed, receipt := client.TransactionReceipt(txHash);
      found, success := false, false;
      if failed || receipt == None { return; }
      var r := receipt.value;
      Others(Some((txHash, r)));
      var number;
      failed, number := client.FinalizedBlock();
      if failed { return; }
      var answer := TwoReads(receipt, number);
      found, success := answer.Some?, r.ok;
      if found { StandingIsFinal(cfg.wire, client.node, txHash, r); }
    }

    /** One row of the batch: read its receipt, and settle it if the receipt is final. */
    method CheckReceipt(w: WithdrawalId, txHash: string) returns (outcome: Polled)
      requires Valid() && Proc() == Idle && StillBroadcast(cfg, db.Rows(), w, txHash)
      modifies this, db, client
      ensures Valid() && old(trace) <= trace && Proc() == Idle && NextNonce() == old(NextNonce())
      ensures Pending() <= old(Pending())
      ensures OthersStand(cfg, old(db.Rows()), db.Rows(), w)
      ensures match outcome
              case NotFinal => Tally() == old(Tally())
              case SettledAs(success) => Tally() == TallyAfter(old(Tally()), success)
              case Errored =>
                      Tally() == old(Tally()) || Tally() == TallyAfter(old(Tally()), true) ||
                      Tally() == TallyAfter(old(Tally()), false)
    {
      hide Check, Effect, SafeRun, Backlog, TallyOf, Next, Inv, FinalReceipt, Apart, OthersStand, StillBroadcast;
      Others();
      ghost var first := db.Rows();
      var failed, found, success := GetFinalizedReceipt(txHash);
      ApartTrans(cfg, old(db.Rows()), first, db.Rows());
      ApartFacts(cfg, old(db.Rows()), db.Rows(), w, txHash);
      if failed { return Errored; }
      if !found { return NotFinal; }
      ReadNext(cfg, Last(trace), w, txHash, success);
      Record(ReadReceipt(w, success), Last(trace).(proc := Settling(w, success)));
      ghost var middle := db.Rows();
      Others();
      ApartFacts(cfg, middle, db.Rows(), w, txHash);
      ghost var before := db.Rows();
      var now: Time := *;
      failed := CommitSettle(w, success, now);
      StandTrans(cfg, old(db.Rows()), middle, before, db.Rows(), w);
      outcome := if failed then Errored else SettledAs(success);
    }

    method ListBroadcast() returns (listed: bool, rows: seq<(WithdrawalId, string)>)
      requires Valid() && Proc() == Idle
      modifies this, db, client
      ensures Valid() && old(trace) <= trace && Proc() == Idle && NextNonce() == old(NextNonce())
      ensures Pending() <= old(Pending())
      ensures Tally() == old(Tally())
      ensures listed ==> |rows| == Tally().0
      ensures listed ==> forall i :: 0 <= i < |rows| ==> StillBroadcast(cfg, db.Rows(), rows[i].0, rows[i].1)
      ensures listed ==> forall i, j :: 0 <= i < j < |rows| ==> rows[i].0 != rows[j].0
    {
      hide Check, Effect, SafeRun, Backlog, Next, Inv, KeepsRows, KeepsAlerts, StillBroadcast, Count;
      Others();
      listed := *;
      rows := [];
      if !listed { return; }
      rows := db.ListBroadcastWithdrawals(cfg.chain);
      NowInv(cfg, trace);
      ListedAll(cfg, Last(trace), rows);
    }

    /**
      Checks every broadcast withdrawal's receipt once, each in its own transaction, so that one
      failure stops nothing else; the counts are what really moved, up to unreported commits.
     */
    method PollReceipts() returns (listed: bool, checked: nat, confirmed: nat, unsuccessful: nat, errs: nat)
      requires Valid() && Proc() == Idle
      modifies this, db, client
      ensures Valid() && old(trace) <= trace && Proc() == Idle && NextNonce() == old(NextNonce())
      ensures Pending() <= old(Pending())
      ensures listed ==> checked == old(Tally()).0
      ensures confirmed + unsuccessful + errs <= checked
      ensures Tally().0 + Tally().1 + Tally().2 == old(Tally()).0 + old(Tally()).1 + old(Tally()).2
      ensures old(Tally()).1 + confirmed <= Tally().1 && old(Tally()).2 + unsuccessful <= Tally().2
      ensures Tally().1 + Tally().2 <= old(Tally()).1 + old(Tally()).2 + confirmed + unsuccessful + errs
    {
      checked, confirmed, unsuccessful, errs := 0, 0, 0, 0;
      hide Check, Effect, SafeRun, Backlog, TallyOf, Next, Inv, StillBroadcast;
      var rows: seq<(WithdrawalId, string)>;
      listed, rows := ListBroadcast();
      if !listed { return; }
      for i := 0 to |rows|
        invariant Valid() && old(trace) <= trace && Proc() == Idle && NextNonce() == old(NextNonce())
        invariant Pending() <= old(Pending())
        invariant checked == i && confirmed + unsuccessful + errs <= checked
        invariant forall j, k :: 0 <= j < k < |rows| ==> rows[j].0 != rows[k].0
        invariant forall j :: i <= j < |rows| ==> StillBroadcast(cfg, db.Rows(), rows[j].0, rows[j].1)
        invariant Tally().0 + Tally().1 + Tally().2 == old(Tally()).0 + old(Tally()).1 + old(Tally()).2
        invariant old(Tally()).1 + confirmed <= Tally().1 && old(Tally()).2 + unsuccessful <= Tally().2
        invariant Tally().1 + Tally().2 <= old(Tally()).1 + old(Tally()).2 + confirmed + unsuccessful + errs
      {
        var (w, txHash) := rows[i];
        checked := checked + 1;
        ghost var before := db.Rows();
        var outcome := CheckReceipt(w, txHash);
        match outcome {
          case Errored => errs := errs + 1;
          case NotFinal =>
          case SettledAs(success) =>
            if success { confirmed := confirmed + 1; } else { unsuccessful := unsuccessful + 1; }
        }
      }
    }

    /** Marks one stuck withdrawal in its own transaction; refused when somebody marked it already. */
    method MarkAlerted(w: WithdrawalId) returns (failed: bool)
      requires Valid() && Proc() == Idle
      modifies this, db, client
      ensures Valid() && old(trace) <= trace && Proc() == Idle && NextNonce() == old(NextNonce())
      ensures Pending() <= old(Pending())
      ensures Tally() == old(Tally()) && KeepsAlerts(old(db.Rows()), db.Rows())
      ensures !failed ==> w < |db.withdrawals| && db.withdrawals[w].stuckAlerted
    {
      hide Check, Effect, SafeRun, Backlog, TallyOf, Next, Inv, KeepsRows;
      Others();
      var begins, commits, reported: bool := *, *, *;
      if !begins { return true; }
      var saved := db.Rows();
      ghost var s := Last(trace);
      NowInv(cfg, trace);
      var err := db.MarkStuckAlerted(w);
      if err.Some? { return true; }
      if !commits { db.Load(saved); return true; }
      OtherFacts(cfg, s, AlertStuck(w));
      Alerted(s.t, w);
      Record(Step.Other(AlertStuck(w)), s.(t := db.Rows()));
      failed := !reported;
    }

    /** The loop over the candidates: one failure stops nothing else. */
    method AlertAll(ids: seq<WithdrawalId>) returns (checked: nat, alerted: nat, errs: nat)
      requires Valid() && Proc() == Idle
      modifies this, db, client
      ensures Valid() && old(trace) <= trace && Proc() == Idle && NextNonce() == old(NextNonce())
      ensures Pending() <= old(Pending())
      ensures Tally() == old(Tally()) && KeepsAlerts(old(db.Rows()), db.Rows())
      ensures checked == |ids| == alerted + errs
      ensures errs == 0 ==> AllAlerted(db.Rows(), ids)
    {
      checked, alerted, errs := 0, 0, 0;
      hide Check, Effect, SafeRun, Backlog, TallyOf, Next, Inv, KeepsAlerts, AllAlerted;
      AlertsKept(db.Rows(), db.Rows(), db.Rows(), []);
      for i := 0 to |ids|
        invariant Valid() && old(trace) <= trace && Proc() == Idle && NextNonce() == old(NextNonce())
        invariant Pending() <= old(Pending())
        invariant Tally() == old(Tally()) && KeepsAlerts(old(db.Rows()), db.Rows())
        invariant checked == i == alerted + errs
        invariant errs == 0 ==> AllAlerted(db.Rows(), ids[..i])
      {
        checked := checked + 1;
        ghost var before := db.Rows();
        var failed := MarkAlerted(ids[i]);
        AlertsKept(old(db.Rows()), before, db.Rows(), ids[..i]);
        if failed { errs := errs + 1; continue; }
        alerted := alerted + 1;
        OneMoreAlerted(db.Rows(), ids, i);
      }
      assert ids[..|ids|] == ids;
    }

    /** Alerts every candidate once; stale is the clock's verdict on which rows have waited too long. */
    method DetectStuck(stale: set<WithdrawalId>) returns (listed: bool, checked: nat, alerted: nat, errs: nat)
      requires Valid() && Proc() == Idle
      modifies this, db, client
      ensures Valid() && old(trace) <= trace && Proc() == Idle && NextNonce() == old(NextNonce())
      ensures Pending() <= old(Pending())
      ensures Tally() == old(Tally()) && KeepsAlerts(old(db.Rows()), db.Rows())
      ensures checked == alerted + errs
      ensures listed && errs == 0 ==>
                forall w | w in stale && OnChain(cfg, old(db.Rows()), w)
                        && old(db.withdrawals)[w].status in {Signed, Broadcast} ::
                  w < |db.withdrawals| && db.withdrawals[w].stuckAlerted
    {
      checked, alerted, errs := 0, 0, 0;
      listed := *;
      if !listed { return; }
      hide Check, Effect, SafeRun, Backlog, TallyOf, Next, Inv, Apart, KeepsRows;
      var ids := db.ListStuckCandidates(cfg.chain, stale);
      checked, alerted, errs := AlertAll(ids);
    }

    /** One tick: drain, then poll receipts, then look for stuck withdrawals, whatever the earlier steps ran into. */
    method Tick(live: bool, stale: set<WithdrawalId>) returns (claimedCount: nat, confirmed: nat, unsuccessful: nat)
      requires Valid() && Proc() == Idle
      modifies this, db, client
      ensures Valid() && old(trace) <= trace && Proc() == Idle
      ensures claimedCount + Pending() <= old(Pending())
      ensures !live ==> NextNonce() == old(NextNonce())
    {
      hide Check, Effect, SafeRun, Backlog, TallyOf, Next, Inv, Count;
      var failed: bool, listed: bool, checked: nat, errs: nat;
      claimedCount, failed := Drain(live);
      listed, checked, confirmed, unsuccessful, errs := PollReceipts();
      var _, _, _, _ := DetectStuck(stale);
    }
  }

  /** The row the listing returns first is the one there is to resume, and an empty listing means there is none. */
  lemma ListedNext(cfg: Config, s: State, ages: map<nat, nat>, rows: seq<(WithdrawalId, Bytes)>)
    requires Inv(cfg, s) && s.proc == Idle && ResumeListing(ages, s.t, rows)
    requires forall x: nat :: x in ages <==> OnChain(cfg, s.t, x) && s.t.withdrawals[x].status == Signed
    ensures rows == [] ==> Next(cfg, s, ListNone, s.(proc := NothingToResume))
    ensures rows != [] ==>
              var (w, raw) := rows[0];
              OnChain(cfg, s.t, w)
                  && Next(cfg, s, Resume(w), s.(proc := if raw != [] then Sending(w, raw) else Signing(w)))
  {
    var listed :| Resumes(ages, s.t, listed, rows);
    forall w | w in ages ensures listed == [w] && StoredBytes(s.t, w).Some? && (w, StoredBytes(s.t, w).value) in rows {
      ListingComplete(cfg, s, ages, listed, w);
      DecodedExact(s.t, listed, w, StoredBytes(s.t, w).value);
    }
    if rows != [] { DecodedExact(s.t, listed, rows[0].0, rows[0].1); }
    hide StoredBytes, Inv, Decoded;
  }

  lemma SignedOnChain(cfg: Config, t: Tables)
    requires Attempted(t)
    ensures forall w: WithdrawalId ::
            w < |t.withdrawals| && t.withdrawals[w].chain == cfg.chain && t.withdrawals[w].status == Signed ==>
            OnChain(cfg, t, w)
  {
  }

  lemma NoneSigned(cfg: Config, s: State)
    requires Inv(cfg, s) && s.proc == NothingToResume
    ensures Count(cfg.chain, {Signed}, s.t) == 0
  {
    assert Attempted(s.t) && ProcOk(cfg, s);
    SignedOnChain(cfg, s.t);
    hide Inv;
    NoneLeft(cfg.chain, {Signed}, s.t.withdrawals);
  }

  lemma SignedWithinBacklog(chain: Chain, t: Tables)
    requires Backlog(chain, t) == 0
    ensures Count(chain, {Signed}, t) == 0
  {
    NoneLeft(chain, {Approved, Signed}, t.withdrawals);
    NoneLeft(chain, {Signed}, t.withdrawals);
  }

  predicate AllAlerted(t: Tables, ids: seq<WithdrawalId>) {
    forall j :: 0 <= j < |ids| ==> ids[j] < |t.withdrawals| && t.withdrawals[ids[j]].stuckAlerted
  }

  /** Alerts, once made, stay made. */
  lemma AlertsKept(a: Tables, b: Tables, c: Tables, ids: seq<WithdrawalId>)
    ensures KeepsAlerts(a, a) && AllAlerted(a, [])
    ensures KeepsAlerts(a, b) && KeepsAlerts(b, c) ==> KeepsAlerts(a, c)
    ensures KeepsAlerts(b, c) && AllAlerted(b, ids) ==> AllAlerted(c, ids)
  {
  }

  lemma OneMoreAlerted(t: Tables, ids: seq<WithdrawalId>, i: nat)
    requires i < |ids| && ids[i] < |t.withdrawals| && t.withdrawals[ids[i]].stuckAlerted
    ensures AllAlerted(t, ids[..i]) ==> AllAlerted(t, ids[..i + 1])
  {
    assert ids[..i + 1] == ids[..i] + [ids[i]];
  }

  lemma Alerted(t: Tables, w: WithdrawalId)
    requires Check(t, AlertStuck(w)) == None
    ensures w < |Effect(t, AlertStuck(w)).withdrawals| && Effect(t, AlertStuck(w)).withdrawals[w].stuckAlerted
  {
  }

  datatype Polled = Errored | NotFinal | SettledAs(success: bool)

  lemma ApartFacts(cfg: Config, t: Tables, t': Tables, w: WithdrawalId, txHash: string)
    requires Apart(cfg, t, t') && StillBroadcast(cfg, t, w, txHash)
    ensures StillBroadcast(cfg, t', w, txHash) && OthersStand(cfg, t, t', w)
    ensures TallyOf(cfg.chain, t') == TallyOf(cfg.chain, t)
  {
    hide TallyOf;
  }

  lemma StandTrans(cfg: Config, a: Tables, b: Tables, c: Tables, d: Tables, w: WithdrawalId)
    requires OthersStand(cfg, a, b, w) && OthersStand(cfg, b, c, w) && OthersStand(cfg, c, d, w)
    ensures OthersStand(cfg, a, d, w)
  {
    hide StillBroadcast;
  }

  function TallyAfter(tally: (nat, nat, nat), success: bool): (int, int, int) {
    if success then (tally.0 - 1, tally.1 + 1, tally.2) else (tally.0 - 1, tally.1, tally.2 + 1)
  }

  predicate StillBroadcast(cfg: Config, t: Tables, w: WithdrawalId, txHash: string) {
    OnChain(cfg, t, w) && t.withdrawals[w].status == Broadcast && t.withdrawals[w].txHash == Some(txHash)
  }

  /** Every row of the chain but w is as it was. */
  ghost predicate OthersStand(cfg: Config, t: Tables, t': Tables, w: WithdrawalId) {
    forall x: WithdrawalId, txHash :: x != w && StillBroadcast(cfg, t, x, txHash) ==> StillBroadcast(cfg, t', x, txHash)
  }

  lemma SettleFacts(cfg: Config, s: State, w: WithdrawalId, success: bool, now: Time)
    requires Inv(cfg, s) && s.proc == Settling(w, success) && Check(s.t, Settle(w, success, now)) == None
    ensures var t' := Effect(s.t, Settle(w, success, now));
            && Next(cfg, s, SettleRead(now), s.(t := t', proc := Idle))
            && OthersStand(cfg, s.t, t', w) && t'.nextNonce == s.t.nextNonce
            && TallyOf(cfg.chain, t') == TallyAfter(TallyOf(cfg.chain, s.t), success)
            && Backlog(cfg.chain, t') == Backlog(cfg.chain, s.t)
  {
    var op := Settle(w, success, now);
    InvBasics(cfg, s);
    SettleNext(cfg, s, now);
    hide Inv, TallyOf, Backlog, OthersStand, Effect, Next, Sound;
    SettleTally(cfg.chain, s.t, op);
    BacklogStep(cfg.chain, s.t, op);
    ProtocolProof.StatusRow(s.t, op, w);
    RowStands(cfg, s.t, Effect(s.t, op), w);
    hide Check;
  }

  lemma StandsSame(cfg: Config, t: Tables, w: WithdrawalId)
    ensures OthersStand(cfg, t, t, w)
  {
  }

  lemma SettleNext(cfg: Config, s: State, now: Time)
    requires s.proc.Settling? && Check(s.t, Settle(s.proc.w, s.proc.success, now)) == None
    ensures Next(cfg, s, SettleRead(now), s.(t := Effect(s.t, Settle(s.proc.w, s.proc.success, now)), proc := Idle))
  {
    hide Check, Effect;
  }

  lemma RowStands(cfg: Config, t: Tables, t': Tables, w: WithdrawalId)
    requires w < |t.withdrawals| && w < |t'.withdrawals|
    requires t'.withdrawals == t.withdrawals[w := t'.withdrawals[w]] && t'.attempts == t.attempts
    ensures OthersStand(cfg, t, t', w)
  {
  }

  lemma SettleTally(chain: Chain, t: Tables, op: Op)
    requires op.Settle? && Check(t, op) == None && t.withdrawals[op.w].chain == chain
    ensures TallyOf(chain, Effect(t, op)) == TallyAfter(TallyOf(chain, t), op.success)
  {
    CountStep(chain, {Broadcast}, t, op);
    CountStep(chain, {Confirmed}, t, op);
    CountStep(chain, {Failed}, t, op);
    hide Effect, Count;
  }

  /** The listing is every broadcast row: the protocol never leaves one without its hash. */
  lemma ListedAll(cfg: Config, s: State, rows: seq<(WithdrawalId, string)>)
    requires Inv(cfg, s)
    requires forall i :: 0 <= i < |rows| ==>
               && rows[i].0 < |s.t.withdrawals| && s.t.withdrawals[rows[i].0].chain == cfg.chain
                   && s.t.withdrawals[rows[i].0].status == Broadcast
               && s.t.withdrawals[rows[i].0].txHash == Some(rows[i].1)
    requires forall i, j :: 0 <= i < j < |rows| ==> rows[i].0 != rows[j].0
    requires forall w ::
            0 <= w < |s.t.withdrawals| && s.t.withdrawals[w].chain == cfg.chain
            && s.t.withdrawals[w].status == Broadcast && s.t.withdrawals[w].txHash.Some? ==>
               (w, s.t.withdrawals[w].txHash.value) in rows
    ensures forall i :: 0 <= i < |rows| ==> StillBroadcast(cfg, s.t, rows[i].0, rows[i].1)
    ensures |rows| == Count(cfg.chain, {Broadcast}, s.t)
  {
    InvBasics(cfg, s);
    hide Inv;
    var all := Which(cfg.chain, {Broadcast}, s.t.withdrawals);
    var ids := seq(|rows|, i requires 0 <= i < |rows| => rows[i].0);
    CountIsSize(cfg.chain, {Broadcast}, s.t.withdrawals);
    PickedCount(ids);
    forall w | w in all ensures w in ids {
      var i :| 0 <= i < |rows| && rows[i] == (w, s.t.withdrawals[w].txHash.value);
      assert ids[i] == w;
    }
    assert (set i | 0 <= i < |ids| :: ids[i]) == all;
  }

  lemma ReadNext(cfg: Config, s: State, w: WithdrawalId, txHash: string, success: bool)
    requires s.proc == Idle && StillBroadcast(cfg, s.t, w, txHash) && FinalReceipt(cfg.wire, s.node, txHash, success)
    ensures Next(cfg, s, ReadReceipt(w, success), s.(proc := Settling(w, success)))
  {
  }

  lemma ApartKeeps(cfg: Config, t: Tables, t': Tables)
    requires Apart(cfg, t, t')
    ensures KeepsRows(cfg, t, t')
  {
  }

  lemma AssembleNext(cfg: Config, t: Tables, s: State, w: WithdrawalId, raw: Bytes)
    requires OnChain(cfg, t, w) && KeepsRows(cfg, t, s.t) && s.proc == Signing(w)
    requires raw != [] && cfg.wire.parse(raw) == Some(PaymentFor(t, w))
    ensures Next(cfg, s, Assemble(raw), s.(proc := Assembled(w, raw)))
  {
  }

  lemma ClaimFacts(cfg: Config, s: State, w: WithdrawalId)
    requires Inv(cfg, s) && s.proc == NothingToResume && Check(s.t, Claim(cfg.chain, w)) == None
    ensures var t' := Effect(s.t, Claim(cfg.chain, w));
            && Next(cfg, s, ClaimNext(w), s.(t := t', proc := Signing(w)))
            && OnChain(cfg, t', w) && Backlog(cfg.chain, t') == Backlog(cfg.chain, s.t)
            && cfg.chain in s.t.nextNonce && t'.nextNonce == s.t.nextNonce[cfg.chain := s.t.nextNonce[cfg.chain] + 1]
  {
    BacklogStep(cfg.chain, s.t, Claim(cfg.chain, w));
    hide Backlog, Inv;
  }

  lemma MarkFacts(cfg: Config, s: State, w: WithdrawalId)
    requires Inv(cfg, s) && s.proc == Sent(w) && Check(s.t, MarkBroadcast(w)) == None
    ensures var t' := Effect(s.t, MarkBroadcast(w));
            && InStatus(cfg, t', w, Broadcast) && w in t'.attempts && RawOf(t', w) in s.node.accepted
            && t'.nextNonce == s.t.nextNonce && Backlog(cfg.chain, t') == Backlog(cfg.chain, s.t) - 1
            && Next(cfg, s, Mark, s.(t := t', proc := Idle))
  {
    BacklogStep(cfg.chain, s.t, MarkBroadcast(w));
    hide Backlog;
  }

  /** Nothing signed, since listing found nothing, and nothing approved, since claiming found nothing. */
  lemma NothingApproved(cfg: Config, s: State, ages: map<nat, nat>)
    requires Inv(cfg, s) && s.proc == NothingToResume && ages == map[]
    requires forall w: nat ::
            w < |s.t.withdrawals| && s.t.withdrawals[w].chain == cfg.chain && s.t.withdrawals[w].status == Approved ==>
            w in ages
    ensures Backlog(cfg.chain, s.t) == 0
  {
    assert Attempted(s.t) && ProcOk(cfg, s);
    SignedOnChain(cfg, s.t);
    hide Inv;
    NoneLeft(cfg.chain, {Approved, Signed}, s.t.withdrawals);
  }

  lemma ApartSame(cfg: Config, t: Tables)
    ensures Apart(cfg, t, t)
  {
  }
}
