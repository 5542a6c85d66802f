/**
  A first customer's withdrawal taken up by the broadcaster, with two endings: what goes wrong when
  the wallet is older than its database, and when a receipt's block is replaced between two reads.
 */
module FirstPayout {
  import opened Domain
  import opened Ledger
  import opened Text
  import opened Protocol
  import opened ProtocolProof
  import opened FirstCustomer

  // ---- the broadcaster takes it up ----

  /** The tables as the broadcaster moves the withdrawal: 0 requested, 1 claimed, 2 persisted, 3 broadcast. */
  function Stage(cfg: Config, raw: Bytes, k: nat): Tables {
    var t := Requested(cfg.chain, cfg.start, 1);
    var row := t.withdrawals[0];
    var hash := Some(cfg.wire.hash(raw));
    if k == 0 then t
    else
      t.(withdrawals := [row.(status := if k < 3 then Signed else Broadcast, nonce := Some(cfg.start),
                              txHash := if k < 3 then None else hash)],
         nextNonce := map[cfg.chain := cfg.start + 1],
         attempts := map[0 :=
             if k == 1 then Attempt(cfg.start, None, None) else Attempt(cfg.start, hash, Some(HexEncode(raw)))])
  }

  lemma StageCommits(cfg: Config, raw: Bytes)
    requires Sound(cfg.wire)
    ensures Commits(Stage(cfg, raw, 0), Claim(cfg.chain, 0), Stage(cfg, raw, 1))
    ensures Commits(Stage(cfg, raw, 1), RecordSigned(0, cfg.wire.hash(raw), HexEncode(raw)), Stage(cfg, raw, 2))
    ensures Commits(Stage(cfg, raw, 2), MarkBroadcast(0), Stage(cfg, raw, 3))
  {
    ClaimCommits(cfg, raw);
    RecordCommits(cfg, raw);
    MarkCommits(cfg, raw);
    hide Check, Effect, Stage, Commits;
  }

  lemma ClaimCommits(cfg: Config, raw: Bytes)
    ensures Commits(Stage(cfg, raw, 0), Claim(cfg.chain, 0), Stage(cfg, raw, 1))
  {
  }

  lemma RecordCommits(cfg: Config, raw: Bytes)
    ensures Commits(Stage(cfg, raw, 1), RecordSigned(0, cfg.wire.hash(raw), HexEncode(raw)), Stage(cfg, raw, 2))
  {
  }

  lemma MarkCommits(cfg: Config, raw: Bytes)
    requires Sound(cfg.wire)
    ensures Commits(Stage(cfg, raw, 2), MarkBroadcast(0), Stage(cfg, raw, 3))
  {
  }

  /** Every payment can be signed into some bytes. */
  ghost predicate CanSign(wire: Wire) { forall p: Payment :: Signable(wire, p) }

  ghost predicate Signable(wire: Wire, p: Payment) { exists raw: Bytes :: Signs(wire, raw, p) }

  predicate Signs(wire: Wire, raw: Bytes, p: Payment) { raw != [] && wire.parse(raw) == Some(p) }

  function FirstPayment(cfg: Config): Payment { Payment(cfg.start, Eth, "0x01", 1) }

  /** A wallet whose account nonce is first and which has sent nothing under this ledger. */
  function Wallet(first: nat): Node { Node(first, first, 0, 0, map[], map[], {}) }

  /** The first payout up to its send. */
  function Opening(cfg: Config, first: nat, raw: Bytes, k: nat): State {
    match k
    case 0 => State(Stage(cfg, raw, 0), Wallet(first), Idle, [])
    case 1 => State(Stage(cfg, raw, 0), Wallet(first), NothingToResume, [])
    case 2 => State(Stage(cfg, raw, 1), Wallet(first), Signing(0), [])
    case 3 => State(Stage(cfg, raw, 1), Wallet(first), Assembled(0, raw), [])
    case _ => State(Stage(cfg, raw, 2), Wallet(first), Sending(0, raw), [])
  }

  function OpeningStep(raw: Bytes, k: nat): Step {
    match k
    case 0 => ListNone
    case 1 => ClaimNext(0)
    case 2 => Assemble(raw)
    case _ => Persist
  }

  lemma OpeningNext(cfg: Config, first: nat, raw: Bytes, k: nat)
    requires Sound(cfg.wire) && Signs(cfg.wire, raw, FirstPayment(cfg)) && k < 4
    ensures Steps(cfg, Opening(cfg, first, raw, k), Opening(cfg, first, raw, k + 1))
  {
    StageCommits(cfg, raw);
    hide Check, Effect, HexEncode, HexDecode;
    assert Next(cfg, Opening(cfg, first, raw, k), OpeningStep(raw, k), Opening(cfg, first, raw, k + 1));
  }

  lemma OpeningInit(cfg: Config, first: nat, raw: Bytes)
    ensures Init(cfg, Opening(cfg, first, raw, 0)) && Reachable(Opening(cfg, first, raw, 0).t)
  {
    RequestReached(cfg.chain, cfg.start, 1);
  }

  // ---- an older wallet ----

  /** Every row in status broadcast has had its own bytes accepted by the node. */
  ghost predicate BroadcastAccepted(cfg: Config, s: State) {
    forall w: WithdrawalId :: OnChain(cfg, s.t, w) && s.t.withdrawals[w].status == Broadcast ==>
            RawOf(s.t, w) in s.node.accepted
  }

  /** A run from a database some history leads to, with a wallet at the given nonce. */
  ghost predicate RunFrom(cfg: Config, first: nat, run: seq<State>) {
    IsRun(cfg, run) && run[0].node.first == first && Reachable(run[0].t)
  }

  ghost predicate AlwaysAccepted(cfg: Config, first: nat) {
    forall run: seq<State> :: RunFrom(cfg, first, run) ==> forall i :: 0 <= i < |run| ==> BroadcastAccepted(cfg, run[i])
  }

  /**
    The seeded nonce decides: status broadcast means accepted, in every run, if and only if the
    wallet had no transaction at or above the seeded next_nonce when the broadcaster first started.
   */
  lemma FreshWalletDecides(cfg: Config, first: nat)
    requires Sound(cfg.wire) && CanSign(cfg.wire)
    ensures AlwaysAccepted(cfg, first) <==> first <= cfg.start
  {
    if first <= cfg.start {
      forall run: seq<State>, i | RunFrom(cfg, first, run) && 0 <= i < |run| ensures BroadcastAccepted(cfg, run[i]) {
        AlwaysInv(cfg, run, i);
        forall w: WithdrawalId | OnChain(cfg, run[i].t, w) && run[i].t.withdrawals[w].status == Broadcast
          ensures RawOf(run[i].t, w) in run[i].node.accepted
        {
          assert OutcomeOf(run[i], w);
        }
      }
    } else {
      var run := StaleWalletRun(cfg, first);
      assert !BroadcastAccepted(cfg, run[6]);
    }
  }

  function StaleState(cfg: Config, first: nat, raw: Bytes, k: nat): State {
    if k < 5 then Opening(cfg, first, raw, k)
    else if k == 5 then State(Stage(cfg, raw, 2), Wallet(first), Sent(0), [(0, raw)])
    else State(Stage(cfg, raw, 3), Wallet(first), Idle, [(0, raw)])
  }

  lemma StaleNext(cfg: Config, first: nat, raw: Bytes, k: nat)
    requires Sound(cfg.wire) && first > cfg.start && k < 6 && Signs(cfg.wire, raw, FirstPayment(cfg))
    ensures Steps(cfg, StaleState(cfg, first, raw, k), StaleState(cfg, first, raw, k + 1))
  {
    hide Check, Effect, Stage, HexEncode, HexDecode;
    var s, s' := StaleState(cfg, first, raw, k), StaleState(cfg, first, raw, k + 1);
    if k < 4 {
      OpeningNext(cfg, first, raw, k);
    } else if k == 4 {
      TooLowIsKnown();
      hide IsAlreadyKnownError;
      assert Next(cfg, s, Send(Refused(NONCE_TOO_LOW)), s');
    } else {
      StageCommits(cfg, raw);
      assert Next(cfg, s, Mark, s');
    }
  }

  /** With an older wallet, "nonce too low" is about somebody else's transaction, and the payout is never sent. */
  lemma StaleWalletRun(cfg: Config, first: nat) returns (run: seq<State>)
    requires Sound(cfg.wire) && CanSign(cfg.wire) && first > cfg.start
    ensures RunFrom(cfg, first, run) && |run| == 7
    ensures OnChain(cfg, run[6].t, 0) && run[6].t.withdrawals[0].status == Broadcast && run[6].node.accepted == {}
  {
    assert Signable(cfg.wire, FirstPayment(cfg));
    var raw :| Signs(cfg.wire, raw, FirstPayment(cfg));
    hide Next, Init, Reachable, Stage, StaleState, IsRun, RunFrom, OnChain;
    run := seq(7, k requires 0 <= k < 7 => StaleState(cfg, first, raw, k));
    StaleIsRun(cfg, first, raw, run);
    StaleEnds(cfg, first, raw);
  }

  lemma StaleIsRun(cfg: Config, first: nat, raw: Bytes, run: seq<State>)
    requires Sound(cfg.wire) && first > cfg.start && Signs(cfg.wire, raw, FirstPayment(cfg))
    requires |run| == 7 && forall k :: 0 <= k < 7 ==> run[k] == StaleState(cfg, first, raw, k)
    ensures RunFrom(cfg, first, run)
  {
    OpeningInit(cfg, first, raw);
    assert run[0] == Opening(cfg, first, raw, 0);
    hide Next, Init, Reachable, StaleState, Stage;
    forall i | 0 <= i < |run| - 1 ensures Steps(cfg, run[i], run[i + 1]) {
      StaleNext(cfg, first, raw, i);
    }
  }

  lemma StaleEnds(cfg: Config, first: nat, raw: Bytes)
    ensures var s := StaleState(cfg, first, raw, 6);
            OnChain(cfg, s.t, 0) && s.t.withdrawals[0].status == Broadcast && s.node.accepted == {}
  {
  }

  lemma TooLowIsKnown()
    ensures IsAlreadyKnownError(NONCE_TOO_LOW)
  {
    assert Lower(NONCE_TOO_LOW) == NONCE_TOO_LOW;
    assert OccursAt(NONCE_TOO_LOW, NONCE_TOO_LOW, 0);
  }

  // ---- a torn receipt ----

  /** The wallet's account after its first transaction: pooled, then mined at block 1 with the given outcome. */
  function Pooled(start: nat, raw: Bytes): Node { Wallet(start).(pool := map[start := raw], accepted := {raw}) }

  function MinedAt1(start: nat, raw: Bytes, ok: bool): Node {
    Wallet(start).(count := start + 1, head := 1, mined := map[start := Mined(raw, ok, 1)], accepted := {raw})
  }

  /** Sent and marked; mined successfully; reorganized out; mined again, reverting; finalized. */
  function TornState(cfg: Config, raw: Bytes, k: nat): State {
    var n, log := cfg.start, [(0, raw)];
    match k
    case 5 => State(Stage(cfg, raw, 2), Pooled(n, raw), Sent(0), log)
    case 6 => State(Stage(cfg, raw, 3), Pooled(n, raw), Idle, log)
    case 7 => State(Stage(cfg, raw, 3), MinedAt1(n, raw, true), Idle, log)
    case 8 => State(Stage(cfg, raw, 3), Pooled(n, raw), Idle, log)
    case 9 => State(Stage(cfg, raw, 3), MinedAt1(n, raw, false), Idle, log)
    case 10 => State(Stage(cfg, raw, 3), MinedAt1(n, raw, false).(fin := 1), Idle, log)
    case _ => Opening(cfg, n, raw, k)
  }

  function TornStep(k: nat): Step {
    match k
    case 4 => Send(Accepted)
    case 5 => Mark
    case 6 => Mine(true)
    case 7 => Reorg
    case 8 => Mine(false)
    case _ => Finalize
  }

  lemma TornNext(cfg: Config, raw: Bytes, k: nat)
    requires Sound(cfg.wire) && k < 10 && Signs(cfg.wire, raw, FirstPayment(cfg))
    ensures Steps(cfg, TornState(cfg, raw, k), TornState(cfg, raw, k + 1))
  {
    hide Check, Effect, Stage, HexEncode, HexDecode;
    if k < 4 {
      OpeningNext(cfg, cfg.start, raw, k);
    } else {
      StageCommits(cfg, raw);
      assert Next(cfg, TornState(cfg, raw, k), TornStep(k), TornState(cfg, raw, k + 1));
    }
  }

  /**
    A run of a fresh wallet in which the receipt, read at state 7, and the finalized number, read
    at state 10, report a finally successful payout. The payout has finally reverted, and nothing
    stops the broadcaster from settling it as confirmed.
   */
  lemma TornReceiptRun(cfg: Config) returns (run: seq<State>, txHash: string)
    requires Sound(cfg.wire) && CanSign(cfg.wire)
    ensures RunFrom(cfg, cfg.start, run) && |run| == 11
    ensures InStatus(cfg, run[7].t, 0, Broadcast) && run[7].t.withdrawals[0].txHash == Some(txHash)
    ensures HasReceipt(cfg.wire, run[7].node, txHash, Receipt(1, true))
    ensures TwoReads(Some(Receipt(1, true)), run[10].node.fin) == Some(true)
    ensures FinalReceipt(cfg.wire, run[10].node, txHash, false) && !FinalReceipt(cfg.wire, run[10].node, txHash, true)
    ensures Check(run[10].t, Settle(0, true, 0)) == None
  {
    assert Signable(cfg.wire, FirstPayment(cfg));
    var raw :| Signs(cfg.wire, raw, FirstPayment(cfg));
    hide Next, Init, Reachable, Check, Stage, HasReceipt, FinalReceipt, InStatus, TornState, IsRun, RunFrom;
    TornReads(cfg, raw);
    txHash := cfg.wire.hash(raw);
    run := seq(11, k requires 0 <= k < 11 => TornState(cfg, raw, k));
    TornIsRun(cfg, raw, run);
  }

  lemma TornIsRun(cfg: Config, raw: Bytes, run: seq<State>)
    requires Sound(cfg.wire) && Signs(cfg.wire, raw, FirstPayment(cfg))
    requires |run| == 11 && forall k :: 0 <= k < 11 ==> run[k] == TornState(cfg, raw, k)
    ensures RunFrom(cfg, cfg.start, run)
  {
    OpeningInit(cfg, cfg.start, raw);
    assert run[0] == Opening(cfg, cfg.start, raw, 0);
    hide Next, Init, Reachable, TornState, Stage;
    forall i | 0 <= i < |run| - 1 ensures Steps(cfg, run[i], run[i + 1]) {
      TornNext(cfg, raw, i);
    }
  }

  lemma TornReads(cfg: Config, raw: Bytes)
    requires Sound(cfg.wire)
    ensures HasReceipt(cfg.wire, TornState(cfg, raw, 7).node, cfg.wire.hash(raw), Receipt(1, true))
    ensures InStatus(cfg, TornState(cfg, raw, 7).t, 0, Broadcast)
    ensures TornState(cfg, raw, 7).t.withdrawals[0].txHash == Some(cfg.wire.hash(raw))
    ensures Check(TornState(cfg, raw, 10).t, Settle(0, true, 0)) == None
    ensures var node := TornState(cfg, raw, 10).node;
            && node.fin == 1 && FinalReceipt(cfg.wire, node, cfg.wire.hash(raw), false)
                && !FinalReceipt(cfg.wire, node, cfg.wire.hash(raw), true)
  {
    hide Stage, Check, InStatus;
    SettlesEitherWay(cfg, raw);
    assert IsReceipt(cfg.wire, MinedAt1(cfg.start, raw, true), cfg.start, cfg.wire.hash(raw));
    assert IsReceipt(cfg.wire, TornState(cfg, raw, 10).node, cfg.start, cfg.wire.hash(raw));
  }

  lemma SettlesEitherWay(cfg: Config, raw: Bytes)
    ensures Check(Stage(cfg, raw, 3), Settle(0, true, 0)) == None && InStatus(cfg, Stage(cfg, raw, 3), 0, Broadcast)
    ensures Stage(cfg, raw, 3).withdrawals[0].txHash == Some(cfg.wire.hash(raw))
  {
    HasAccounts(cfg.chain);
    assert TreasuryOf(cfg.chain, Eth) !in Numbers();
    assert WithdrawalSettlement(0) !in Causes(Stage(cfg, raw, 3).journal);
  }
}
