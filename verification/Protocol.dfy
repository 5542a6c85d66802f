/**
  The withdrawal broadcast protocol of one chain as a state machine: the broadcaster's steps, a
  crash between any two of them, every transaction other processes commit, and the chain. The
  invariant here is what makes at-most-one payout true.
 */
module Protocol {
  import opened Domain
  import opened Ledger
  import opened Text

  // ---- the chain, as seen by the hot wallet ----

  /** What a signed transaction does, apart from gas and signature. */
  datatype Payment = Payment(nonce: nat, asset: Asset, to: string, amount: nat)

  /** The foreign encoding: what raw bytes decode to, and their transaction hash. */
  datatype Wire = Wire(parse: Bytes -> Option<Payment>, hash: Bytes -> string)

  /** Transaction hashes are collision free and never empty text. */
  ghost predicate Sound(wire: Wire) {
    (forall a, b :: wire.hash(a) == wire.hash(b) ==> a == b) && (forall a :: wire.hash(a) != "")
  }

  /** A transaction of the wallet in a block: its bytes, its outcome, and the block's number. */
  datatype Mined = Mined(raw: Bytes, ok: bool, block: nat)

  /**
    A node's view of the hot wallet's account. Nonces below first were used before this database
    was seeded; count is the account nonce; head and fin are the latest and the finalized block.
   */
  datatype Node = Node(first: nat, count: nat, head: nat, fin: nat, mined: map<nat, Mined>, pool: map<nat, Bytes>,
      accepted: set<Bytes>)

  predicate Occupied(node: Node, n: nat) { n < node.count || n in node.pool }

  function Admit(node: Node, n: nat, raw: Bytes): Node {
    node.(pool := node.pool[n := raw], accepted := node.accepted + {raw})
  }

  datatype Reply = Accepted | Refused(message: string)

  /**
    The node's contract for eth_sendRawTransaction. It says "already known" or "nonce too low"
    only when some transaction occupies the nonce, without saying which; any other refusal may
    hide an acceptance.
   */
  predicate Replies(wire: Wire, node: Node, raw: Bytes, reply: Reply, node': Node) {
    match wire.parse(raw)
    case None => node' == node && reply.Refused? && !IsAlreadyKnownError(reply.message)
    case Some(p) =>
      match reply
      case Accepted => node.count <= p.nonce && node' == Admit(node, p.nonce, raw)
      case Refused(message) =>
        && (IsAlreadyKnownError(message) ==> Occupied(node, p.nonce))
        && (node' == node || (node.count <= p.nonce && node' == Admit(node, p.nonce, raw)))
  }

  /** A receipt at or below the finalized tag, by transaction hash. */
  predicate FinalReceipt(wire: Wire, node: Node, txHash: string, success: bool) {
    exists n :: n in node.mined && IsReceipt(wire, node, n, txHash) && node.mined[n].block <= node.fin
        && node.mined[n].ok == success
  }

  predicate IsReceipt(wire: Wire, node: Node, n: nat, txHash: string) {
    n in node.mined && wire.hash(node.mined[n].raw) == txHash
  }

  /** What eth_getTransactionReceipt tells of a transaction: the block it is in, and its status. */
  datatype Receipt = Receipt(block: nat, ok: bool)

  predicate HasReceipt(wire: Wire, node: Node, txHash: string, r: Receipt) {
    exists n :: n in node.mined && IsReceipt(wire, node, n, txHash) && node.mined[n].block == r.block
        && node.mined[n].ok == r.ok
  }

  /** The answer GetFinalizedReceipt gives from a receipt and a finalized block number read after it. */
  function TwoReads(receipt: Option<Receipt>, finalized: nat): Option<bool> {
    if receipt.Some? && receipt.value.block <= finalized then Some(receipt.value.ok) else None
  }

  /** The next transaction enters a block, at or above the head and above everything final. */
  predicate MineStep(node: Node, ok: bool, node': Node) {
    && node.count in node.pool && node.head <= node'.head && node.fin < node'.head
    && node' == node.(count := node.count + 1, head := node'.head,
                      mined := node.mined[node.count := Mined(node.pool[node.count], ok, node'.head)],
                      pool := node.pool - {node.count})
  }

  /** A reorg above the finalized block, or evictions: transactions leave blocks and may or may not stay in the pool. */
  predicate ReorgStep(node: Node, node': Node) {
    && node.first <= node'.count <= node.count && node.fin <= node'.head
    && (forall n :: n in node.mined && node.mined[n].block <= node.fin ==> n < node'.count)
    && node'.first == node.first && node'.fin == node.fin && node'.accepted == node.accepted
    && node'.mined == (map n | n in node.mined && n < node'.count :: node.mined[n])
    && forall n :: n in node'.pool ==>
         && n >= node'.count
         && ((n in node.pool && node'.pool[n] == node.pool[n])
             || (n in node.mined && node'.pool[n] == node.mined[n].raw))
  }

  /** Blocks without a transaction of the wallet are added, and the finalized tag moves up. */
  predicate FinalizeStep(node: Node, node': Node) {
    node.head <= node'.head && node.fin <= node'.fin <= node'.head
        && node' == node.(head := node'.head, fin := node'.fin)
  }

  // ---- the broadcaster process ----

  /** Where the broadcaster is; all of it is lost in a crash. */
  datatype Proc =
    | Idle
    | NothingToResume
    | Signing(w: WithdrawalId)
    | Assembled(w: WithdrawalId, raw: Bytes)
    | Sending(w: WithdrawalId, raw: Bytes)
    | Sent(w: WithdrawalId)
    | Settling(w: WithdrawalId, success: bool)

  datatype Config = Config(chain: Chain, wire: Wire, start: nat)

  /** log is a history variable: every byte string ever handed to SendRawTransaction, and for which withdrawal. */
  datatype State = State(t: Tables, node: Node, proc: Proc, log: seq<(WithdrawalId, Bytes)>)

  predicate InStatus(cfg: Config, t: Tables, w: WithdrawalId, status: Status) {
    w < |t.withdrawals| && t.withdrawals[w].chain == cfg.chain && t.withdrawals[w].status == status
  }

  /** The signed bytes a listing decodes for w: empty when none are stored, None when they do not decode. */
  function StoredBytes(t: Tables, w: WithdrawalId): Option<Bytes>
    requires w in t.attempts
  {
    match t.attempts[w].signedTx
    case None => Some([])
    case Some(text) => if text == "" then Some([]) else HexDecode(TrimHexPrefix(text))
  }

  /** w is in the resume set: signed, and its stored bytes decode. */
  predicate Resumable(cfg: Config, t: Tables, w: WithdrawalId) {
    InStatus(cfg, t, w, Signed) && w in t.attempts && StoredBytes(t, w).Some?
  }

  /** The payment the broadcaster builds for w. */
  function PaymentFor(t: Tables, w: WithdrawalId): Payment
    requires w < |t.withdrawals| && w in t.attempts
  {
    Payment(t.attempts[w].nonce, t.withdrawals[w].asset, t.withdrawals[w].destination, t.withdrawals[w].amount)
  }

  /** Transactions only this chain's broadcaster commits: one broadcaster process per chain. */
  predicate BroadcasterOnly(cfg: Config, t: Tables, op: Op) {
    match op
    case Claim(chain, _) => chain == cfg.chain
    case RecordSigned(w, _, _) => w < |t.withdrawals| && t.withdrawals[w].chain == cfg.chain
    case MarkBroadcast(w) => w < |t.withdrawals| && t.withdrawals[w].chain == cfg.chain
    case Settle(w, _, _) => w < |t.withdrawals| && t.withdrawals[w].chain == cfg.chain
    case _ => false
  }

  datatype Step =
    | ListNone
    | Resume(w: WithdrawalId)
    | ClaimNext(w: WithdrawalId)
    | Assemble(raw: Bytes)
    | Persist
    | Send(reply: Reply)
    | Mark
    | ReadReceipt(w: WithdrawalId, success: bool)
    | SettleRead(now: Time)
    | Crash
    | Other(op: Op)
    | Mine(ok: bool)
    | Reorg
    | Finalize

  predicate Commits(t: Tables, op: Op, t': Tables) { Check(t, op) == None && t' == Effect(t, op) }

  predicate Next(cfg: Config, s: State, step: Step, s': State) {
    match step
    case ListNone =>
            s.proc == Idle && (forall w :: w in s.t.attempts ==> !Resumable(cfg, s.t, w))
            && s' == s.(proc := NothingToResume)
    case Resume(w) =>
      && s.proc == Idle && Resumable(cfg, s.t, w)
      && var raw := StoredBytes(s.t, w).value;
      && s' == s.(proc := if raw != [] then Sending(w, raw) else Signing(w))
    case ClaimNext(w) =>
            s.proc == NothingToResume && Commits(s.t, Claim(cfg.chain, w), s'.t)
            && s' == s.(t := s'.t, proc := Signing(w))
    case Assemble(raw) =>
      && s.proc.Signing? && s.proc.w < |s.t.withdrawals| && s.proc.w in s.t.attempts && raw != []
      && cfg.wire.parse(raw) == Some(PaymentFor(s.t, s.proc.w))
      && s' == s.(proc := Assembled(s.proc.w, raw))
    case Persist =>
      && s.proc.Assembled?
      && Commits(s.t, RecordSigned(s.proc.w, cfg.wire.hash(s.proc.raw), HexEncode(s.proc.raw)), s'.t)
      && s' == s.(t := s'.t, proc := Sending(s.proc.w, s.proc.raw))
    case Send(reply) =>
      && s.proc.Sending? && Replies(cfg.wire, s.node, s.proc.raw, reply, s'.node)
      && s' == s.(node := s'.node, log := s.log + [(s.proc.w, s.proc.raw)],
                  proc := if reply.Accepted? || IsAlreadyKnownError(reply.message) then Sent(s.proc.w) else Idle)
    case Mark => s.proc.Sent? && Commits(s.t, MarkBroadcast(s.proc.w), s'.t) && s' == s.(t := s'.t, proc := Idle)
    case ReadReceipt(w, success) =>
      && s.proc == Idle && InStatus(cfg, s.t, w, Broadcast) && s.t.withdrawals[w].txHash.Some?
      && FinalReceipt(cfg.wire, s.node, s.t.withdrawals[w].txHash.value, success)
      && s' == s.(proc := Settling(w, success))
    case SettleRead(now) =>
            s.proc.Settling? && Commits(s.t, Settle(s.proc.w, s.proc.success, now), s'.t)
            && s' == s.(t := s'.t, proc := Idle)
    case Crash => s' == s.(proc := Idle)
    case Other(op) => !BroadcasterOnly(cfg, s.t, op) && s' == s.(t := Apply(s.t, op))
    case Mine(ok) => MineStep(s.node, ok, s'.node) && s' == s.(node := s'.node)
    case Reorg => ReorgStep(s.node, s'.node) && s' == s.(node := s'.node)
    case Finalize => FinalizeStep(s.node, s'.node) && s' == s.(node := s'.node)
  }

  /** The broadcaster's first start: next_nonce is seeded with start and nothing on the chain is claimed. */
  predicate Init(cfg: Config, s: State) {
    && cfg.chain in s.t.nextNonce && s.t.nextNonce[cfg.chain] == cfg.start
    && (forall w :: w in s.t.attempts ==> w < |s.t.withdrawals| && s.t.withdrawals[w].chain != cfg.chain)
    && (forall w :: 0 <= w < |s.t.withdrawals| ==> (s.t.withdrawals[w].Claimed() <==> w in s.t.attempts))
    && s.node == Node(s.node.first, s.node.first, s.node.head, s.node.fin, map[], map[], {})
        && s.node.fin <= s.node.head
    && s.proc == Idle && s.log == []
  }

  /** Every run: any number of steps from a first start. */
  ghost predicate IsRun(cfg: Config, run: seq<State>) {
    && run != [] && Init(cfg, run[0])
    && forall i :: 0 <= i < |run| - 1 ==> Steps(cfg, run[i], run[i + 1])
  }

  ghost predicate Steps(cfg: Config, s: State, s': State) { exists step :: Next(cfg, s, step, s') }

  // ---- the invariant ----

  /** w is on this chain and holds nonce n. */
  predicate Holds(cfg: Config, t: Tables, w: WithdrawalId, n: nat) {
    w in t.attempts && w < |t.withdrawals| && t.withdrawals[w].chain == cfg.chain && t.attempts[w].nonce == n
  }

  ghost predicate Allocated(cfg: Config, t: Tables, n: nat) { exists w :: Holds(cfg, t, w, n) }

  predicate OnChain(cfg: Config, t: Tables, w: WithdrawalId) {
    w in t.attempts && w < |t.withdrawals| && t.withdrawals[w].chain == cfg.chain
  }

  /** An attempt exists exactly for the claimed rows. */
  predicate Attempted(t: Tables) {
    && (forall w :: w in t.attempts ==> w < |t.withdrawals|)
    && (forall w :: 0 <= w < |t.withdrawals| ==> (t.withdrawals[w].Claimed() <==> w in t.attempts))
  }

  /** Allocated nonces are start .. next_nonce - 1, one per claimed withdrawal; only the top one can be signed. */
  ghost predicate Nonces(cfg: Config, t: Tables) {
    && cfg.chain in t.nextNonce && cfg.start <= t.nextNonce[cfg.chain]
    && (forall w: WithdrawalId :: OnChain(cfg, t, w) ==> cfg.start <= t.attempts[w].nonce < t.nextNonce[cfg.chain])
    && (forall w: WithdrawalId, w': WithdrawalId ::
        OnChain(cfg, t, w) && OnChain(cfg, t, w') && t.attempts[w].nonce == t.attempts[w'].nonce ==> w == w')
    && (forall n :: cfg.start <= n < t.nextNonce[cfg.chain] ==> Allocated(cfg, t, n))
    && (forall w: WithdrawalId :: OnChain(cfg, t, w) && t.withdrawals[w].status == Signed ==>
        t.attempts[w].nonce == t.nextNonce[cfg.chain] - 1)
  }

  /** raw is w's one durable signed transaction: it pays exactly what the row says, under w's nonce. */
  predicate Persisted(cfg: Config, t: Tables, w: WithdrawalId, raw: Bytes) {
    && OnChain(cfg, t, w) && raw != []
    && t.attempts[w].signedTx == Some(HexEncode(raw))
    && t.attempts[w].txHash == Some(cfg.wire.hash(raw))
    && cfg.wire.parse(raw) == Some(PaymentFor(t, w))
  }

  /** The bytes stored for w. */
  function RawOf(t: Tables, w: WithdrawalId): Bytes
    requires w in t.attempts
  {
    if StoredBytes(t, w).Some? then StoredBytes(t, w).value else []
  }

  ghost predicate Stored(cfg: Config, t: Tables) {
    && (forall w: WithdrawalId :: OnChain(cfg, t, w) && t.attempts[w].signedTx.Some? ==>
        Persisted(cfg, t, w, RawOf(t, w)))
    && (forall w: WithdrawalId :: OnChain(cfg, t, w) && t.withdrawals[w].status != Signed ==>
          t.attempts[w].signedTx.Some? && t.withdrawals[w].txHash == t.attempts[w].txHash)
    && (forall w: WithdrawalId :: OnChain(cfg, t, w) && t.attempts[w].signedTx == None ==> t.attempts[w].txHash == None)
  }

  /** Some withdrawal holding nonce n persisted raw, and the node has accepted it. */
  ghost predicate Owned(cfg: Config, s: State, n: nat, raw: Bytes) {
    raw in s.node.accepted && exists w :: Holds(cfg, s.t, w, n) && Persisted(cfg, s.t, w, raw)
  }

  /** The wallet was fresh at the seeded nonce; only this broadcaster's accepted bytes occupy nonces from there on. */
  ghost predicate NodeOk(cfg: Config, s: State) {
    && s.node.first <= cfg.start && s.node.first <= s.node.count
    && (forall n :: n in s.node.mined <==> s.node.first <= n < s.node.count)
    && (forall n :: n in s.node.mined ==> Owned(cfg, s, n, s.node.mined[n].raw))
    && (forall n :: n in s.node.pool ==> n >= s.node.count && Owned(cfg, s, n, s.node.pool[n]))
  }

  predicate Final(s: State, n: nat, raw: Bytes, ok: bool) {
    n in s.node.mined && s.node.mined[n].block <= s.node.fin && s.node.mined[n].raw == raw && s.node.mined[n].ok == ok
  }

  /** Status broadcast: the node accepted w's own bytes. A settled status: they are final with that outcome. */
  ghost predicate Outcomes(cfg: Config, s: State) {
    forall w: WithdrawalId :: OnChain(cfg, s.t, w) ==> OutcomeOf(s, w)
  }

  predicate OutcomeOf(s: State, w: WithdrawalId)
    requires w in s.t.attempts && w < |s.t.withdrawals|
  {
    match s.t.withdrawals[w].status
    case Broadcast => RawOf(s.t, w) in s.node.accepted
    case Confirmed => RawOf(s.t, w) in s.node.accepted && Final(s, s.t.attempts[w].nonce, RawOf(s.t, w), true)
    case Failed => RawOf(s.t, w) in s.node.accepted && Final(s, s.t.attempts[w].nonce, RawOf(s.t, w), false)
    case _ => true
  }

  predicate SignedRow(cfg: Config, t: Tables, w: WithdrawalId) {
    OnChain(cfg, t, w) && t.withdrawals[w].status == Signed
  }

  ghost predicate ProcOk(cfg: Config, s: State) {
    match s.proc
    case Idle => true
    case NothingToResume => forall w: WithdrawalId :: OnChain(cfg, s.t, w) ==> s.t.withdrawals[w].status != Signed
    case Signing(w) => SignedRow(cfg, s.t, w) && s.t.attempts[w].signedTx == None
    case Assembled(w, raw) =>
      SignedRow(cfg, s.t, w) && s.t.attempts[w].signedTx == None && raw != []
          && cfg.wire.parse(raw) == Some(PaymentFor(s.t, w))
    case Sending(w, raw) => SignedRow(cfg, s.t, w) && Persisted(cfg, s.t, w, raw)
    case Sent(w) => SignedRow(cfg, s.t, w) && Persisted(cfg, s.t, w, RawOf(s.t, w)) && RawOf(s.t, w) in s.node.accepted
    case Settling(w, success) =>
      OnChain(cfg, s.t, w) && s.t.withdrawals[w].status == Broadcast
          && Final(s, s.t.attempts[w].nonce, RawOf(s.t, w), success)
  }

  predicate LogOk(cfg: Config, s: State) {
    forall i :: 0 <= i < |s.log| ==> Persisted(cfg, s.t, s.log[i].0, s.log[i].1)
  }

  ghost predicate Inv(cfg: Config, s: State) {
    && Attempted(s.t) && Nonces(cfg, s.t) && Stored(cfg, s.t)
    && NodeOk(cfg, s) && Outcomes(cfg, s) && ProcOk(cfg, s) && LogOk(cfg, s)
  }
}
