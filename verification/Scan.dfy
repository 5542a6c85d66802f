/**
  The deposit scanner over a range of blocks: top-level transfers, internal transfers and token
  logs. Loops against concatenation, concatenation against what is in the blocks.
 */
module Scan {
  import opened Domain
  import opened Text
  import opened CallTree

  datatype RawTx = RawTx(hash: string, to: Option<EvmAddress>, value: Option<int>)

  /** One transaction's trace; a non-empty error means tracing it failed. */
  datatype Trace = Trace(txHash: string, result: Frame, error: string)

  /** A log whose first topic is Transfer's signature; to is its third topic when there are three. */
  datatype Log = Log(removed: bool, topics: nat, to: EvmAddress, dataSize: nat, amount: nat, contract: string,
      txHash: string, index: nat)

  datatype Block = Block(hash: string, txs: seq<RawTx>, traces: seq<Trace>, logs: seq<Log>)

  type History = nat -> Block

  /** The addresses, tokens and trace support a scan works with. */
  datatype View = View(chain: Chain, known: Known, registry: map<string, Asset>, traces: bool)

  datatype Unsupported = Unsupported(chain: Chain, address: string, contract: string, txHash: string, logIndex: int,
      amount: nat, block: nat)

  const NATIVE_LOG_INDEX := -1

  // ---- what is in a block ----

  predicate PaysKnown(v: View, tx: RawTx) {
    tx.to.Some? && tx.to.value in v.known && tx.value.Some? && tx.value.value > 0
  }

  function NativeTransfer(v: View, h: nat, b: Block, tx: RawTx): Transfer
    requires PaysKnown(v, tx)
  {
    Transfer(v.chain, Eth, v.known[tx.to.value], tx.hash, NATIVE_LOG_INDEX, tx.value.value, h, b.hash)
  }

  function PlaceOf(v: View, h: nat, b: Block, t: Trace): Place { Place(v.chain, t.txHash, h, b.hash) }

  /** A standard, standing, positive Transfer log to a known address. */
  predicate WellFormed(v: View, l: Log) {
    !l.removed && l.topics == 3 && l.dataSize == 32 && l.to in v.known && l.amount > 0
  }

  predicate Supported(v: View, l: Log) { Lower(l.contract) in v.registry }

  function TokenTransfer(v: View, h: nat, b: Block, l: Log): Transfer
    requires WellFormed(v, l) && Supported(v, l)
  {
    Transfer(v.chain, v.registry[Lower(l.contract)], v.known[l.to], l.txHash, l.index, l.amount, h, b.hash)
  }

  predicate NativeHit(v: View, h: nat, b: Block, i: nat, x: Transfer) {
    i < |b.txs| && PaysKnown(v, b.txs[i]) && x == NativeTransfer(v, h, b, b.txs[i])
  }

  predicate InternalHit(v: View, h: nat, b: Block, j: nat, path: seq<nat>, x: Transfer) {
    v.traces && j < |b.traces| && b.traces[j].error == ""
        && IsTransferAt(v.known, PlaceOf(v, h, b, b.traces[j]), b.traces[j].result, path, x)
  }

  /** Trace j of the block holds x somewhere in its tree. */
  ghost predicate TraceHit(v: View, h: nat, b: Block, j: nat, x: Transfer) {
    exists path :: InternalHit(v, h, b, j, path, x)
  }

  predicate TokenHit(v: View, h: nat, b: Block, k: nat, x: Transfer) {
    k < |b.logs| && WellFormed(v, b.logs[k]) && Supported(v, b.logs[k]) && x == TokenTransfer(v, h, b, b.logs[k])
  }

  /** Block b at height h holds the deposit x. */
  ghost predicate FoundAt(v: View, h: nat, b: Block, x: Transfer) {
    (exists i: nat :: NativeHit(v, h, b, i, x)) || (exists j: nat :: TraceHit(v, h, b, j, x)) ||
        (exists k: nat :: TokenHit(v, h, b, k, x))
  }

  ghost predicate Found(v: View, history: History, from: nat, to: nat, x: Transfer) {
    exists h: nat :: from <= h <= to && FoundAt(v, h, history(h), x)
  }

  // ---- the lists the loops build ----

  function NativeOf(v: View, h: nat, b: Block, n: nat): seq<Transfer>
    requires n <= |b.txs|
  {
    if n == 0 then []
    else NativeOf(v, h, b, n - 1) + if PaysKnown(v, b.txs[n - 1]) then [NativeTransfer(v, h, b, b.txs[n - 1])] else []
  }

  function TraceTransfers(v: View, h: nat, b: Block, t: Trace): seq<Transfer> {
    if t.error != "" then []
    else Collect(v.known, PlaceOf(v, h, b, t), Visits(t.result.calls, |t.result.calls|, t.result.error != ""), 0)
  }

  function InternalOf(v: View, h: nat, b: Block, n: nat): seq<Transfer>
    requires n <= |b.traces|
  {
    if n == 0 || !v.traces then [] else InternalOf(v, h, b, n - 1) + TraceTransfers(v, h, b, b.traces[n - 1])
  }

  function TokensOf(v: View, h: nat, b: Block, n: nat): seq<Transfer>
    requires n <= |b.logs|
  {
    if n == 0 then []
    else
      TokensOf(v, h, b, n - 1)
      + if WellFormed(v, b.logs[n - 1])
          && Supported(v, b.logs[n - 1]) then [TokenTransfer(v, h, b, b.logs[n - 1])] else []
  }

  function EthIn(v: View, h: nat, b: Block): seq<Transfer> {
    NativeOf(v, h, b, |b.txs|) + InternalOf(v, h, b, |b.traces|)
  }

  function EthRange(v: View, history: History, from: nat, to: int): seq<Transfer>
    decreases if to < from then 0 else to - from + 1
  {
    if to < from then [] else EthRange(v, history, from, to - 1) + EthIn(v, to, history(to))
  }

  function TokenRange(v: View, history: History, from: nat, to: int): seq<Transfer>
    decreases if to < from then 0 else to - from + 1
  {
    if to < from then [] else TokenRange(v, history, from, to - 1) + TokensOf(v, to, history(to), |history(to).logs|)
  }

  // ---- the lists hold exactly what the blocks hold ----

  lemma {:induction false} NativeExact(v: View, h: nat, b: Block, n: nat, x: Transfer)
    requires n <= |b.txs|
    ensures x in NativeOf(v, h, b, n) <==> exists i: nat :: i < n && NativeHit(v, h, b, i, x)
  {
    if n > 0 {
      NativeExact(v, h, b, n - 1, x);
      assert NativeHit(v, h, b, n - 1, x) ==> n - 1 < n;
    }
  }

  lemma TraceExact(v: View, h: nat, b: Block, j: nat, x: Transfer)
    requires v.traces && j < |b.traces|
    ensures x in TraceTransfers(v, h, b, b.traces[j]) <==> TraceHit(v, h, b, j, x)
  {
    var t := b.traces[j];
    WalkExact(v.known, PlaceOf(v, h, b, t), t.result, x);
    hide Collect, Visits, IsTransferAt;
    if TraceHit(v, h, b, j, x) {
      var path :| InternalHit(v, h, b, j, path, x);
      assert IsTransferAt(v.known, PlaceOf(v, h, b, t), t.result, path, x);
    }
    if x in TraceTransfers(v, h, b, t) {
      var path :| IsTransferAt(v.known, PlaceOf(v, h, b, t), t.result, path, x);
      assert InternalHit(v, h, b, j, path, x);
    }
  }

  lemma {:induction false} InternalExact(v: View, h: nat, b: Block, n: nat, x: Transfer)
    requires n <= |b.traces|
    ensures x in InternalOf(v, h, b, n) <==> exists j: nat :: j < n && TraceHit(v, h, b, j, x)
  {
    assert !v.traces ==> forall j: nat :: !TraceHit(v, h, b, j, x);
    hide TraceTransfers, TraceHit;
    if n > 0 && v.traces {
      InternalExact(v, h, b, n - 1, x);
      TraceExact(v, h, b, n - 1, x);
      assert TraceHit(v, h, b, n - 1, x) ==> n - 1 < n;
    }
  }

  lemma {:induction false} TokensExact(v: View, h: nat, b: Block, n: nat, x: Transfer)
    requires n <= |b.logs|
    ensures x in TokensOf(v, h, b, n) <==> exists k: nat :: k < n && TokenHit(v, h, b, k, x)
  {
    if n > 0 {
      TokensExact(v, h, b, n - 1, x);
      assert TokenHit(v, h, b, n - 1, x) ==> n - 1 < n;
    }
  }

  lemma BlockExact(v: View, h: nat, b: Block, x: Transfer)
    ensures x in EthIn(v, h, b) || x in TokensOf(v, h, b, |b.logs|) <==> FoundAt(v, h, b, x)
  {
    NativeExact(v, h, b, |b.txs|, x);
    InternalExact(v, h, b, |b.traces|, x);
    TokensExact(v, h, b, |b.logs|, x);
    assert forall i: nat :: NativeHit(v, h, b, i, x) ==> i < |b.txs|;
    assert forall j: nat :: TraceHit(v, h, b, j, x) ==> j < |b.traces|;
    assert forall k: nat :: TokenHit(v, h, b, k, x) ==> k < |b.logs|;
    hide NativeHit, TraceHit, TokenHit, NativeOf, InternalOf, TokensOf;
  }

  /** One scan of a range returns a transfer if and only if some block of the range holds it. */
  lemma {:induction false} RangeExact(v: View, history: History, from: nat, to: int, x: Transfer)
    ensures x in EthRange(v, history, from, to) || x in TokenRange(v, history, from, to)
       <==> exists h: nat :: from <= h <= to && FoundAt(v, h, history(h), x)
    decreases if to < from then 0 else to - from + 1
  {
    hide FoundAt, EthIn, TokensOf;
    if to >= from {
      RangeExact(v, history, from, to - 1, x);
      BlockExact(v, to, history(to), x);
    }
  }

  // ---- the scanner ----

  function UnsupportedOf(v: View, h: nat, b: Block, n: nat): seq<Unsupported>
    requires n <= |b.logs|
  {
    if n == 0 then []
    else
      var l := b.logs[n - 1];
      UnsupportedOf(v, h, b, n - 1)
      + if WellFormed(v, l)
          && !Supported(v, l) then [Unsupported(v.chain, v.known[l.to], l.contract, l.txHash, l.index, l.amount, h)]
          else []
  }

  function UnsupportedRange(v: View, history: History, from: nat, to: int): seq<Unsupported>
    decreases if to < from then 0 else to - from + 1
  {
    if to < from then []
        else UnsupportedRange(v, history, from, to - 1) + UnsupportedOf(v, to, history(to), |history(to).logs|)
  }

  class Scanner {
    const chain: Chain
    const history: History
    /** Whether this RPC endpoint can trace; fixed for the life of the scanner. */
    const canTrace: bool
    var internalTraceDisabled: bool

    predicate Valid()
      reads this
    {
      internalTraceDisabled ==> !canTrace
    }

    constructor (chain: Chain, history: History, canTrace: bool)
      ensures this.chain == chain && this.history == history && this.canTrace == canTrace && Valid()
    {
      this.chain, this.history, this.canTrace, internalTraceDisabled := chain, history, canTrace, false;
    }

    function ViewOf(known: Known, registry: map<string, Asset>): View { View(chain, known, registry, canTrace) }

    /** The second pass over one block; the first failure disables it for good. */
    method ScanInternalTransfers(known: Known, h: nat) returns (transfers: seq<Transfer>)
      requires Valid()
      modifies this
      ensures Valid() && transfers == InternalOf(ViewOf(known, map[]), h, history(h), |history(h).traces|)
    {
      transfers := [];
      var block := history(h);
      ghost var v := ViewOf(known, map[]);
      if internalTraceDisabled || |known| == 0 {
        NothingKnown(v, h, block, |block.traces|);
        return;
      }
      if !canTrace {
        internalTraceDisabled := true;
        return;
      }
      for j := 0 to |block.traces|
        invariant Valid() && transfers == InternalOf(v, h, block, j)
      {
        var trace := block.traces[j];
        if trace.error != "" { continue; }
        var walker := new Walker(known, Place(chain, trace.txHash, h, block.hash), transfers);
        walker.Walk(trace.result, trace.result.error != "");
        transfers := walker.transfers;
      }
    }

    /** The top-level pass over one block. */
    method ScanTopLevel(known: Known, h: nat) returns (transfers: seq<Transfer>)
      ensures transfers == NativeOf(ViewOf(known, map[]), h, history(h), |history(h).txs|)
    {
      transfers := [];
      var block := history(h);
      for i := 0 to |block.txs|
        invariant transfers == NativeOf(ViewOf(known, map[]), h, block, i)
      {
        var tx := block.txs[i];
        if tx.to == None { continue; }
        if tx.to.value !in known { continue; }
        if tx.value == None || tx.value.value <= 0 { continue; }
        transfers := transfers
          + [Transfer(chain, Eth, known[tx.to.value], tx.hash, NATIVE_LOG_INDEX, tx.value.value, h, block.hash)];
      }
    }

    method ScanNativeTransfers(known: Known, from: nat, to: nat) returns (failed: bool, transfers: seq<Transfer>)
      requires Valid() && from <= to
      modifies this
      ensures Valid() && (!failed ==> transfers == EthRange(ViewOf(known, map[]), history, from, to))
    {
      transfers := [];
      for h := from to to + 1
        invariant Valid() && transfers == EthRange(ViewOf(known, map[]), history, from, h - 1)
      {
        failed := *;
        if failed { return true, []; }
        var topLevel := ScanTopLevel(known, h);
        var internal := ScanInternalTransfers(known, h);
        transfers := transfers + (topLevel + internal);
      }
      failed := false;
    }

    /** Every Transfer log of the range, sorted into supported deposits and unsupported observations. */
    method ScanErc20Transfers(known: Known, registry: map<string, Asset>, from: nat, to: nat)
      returns (failed: bool, transfers: seq<Transfer>, unsupported: seq<Unsupported>)
      requires from <= to
      ensures !failed ==> transfers == TokenRange(ViewOf(known, registry), history, from, to)
      ensures !failed ==> unsupported == UnsupportedRange(ViewOf(known, registry), history, from, to)
    {
      failed := *;
      transfers, unsupported := [], [];
      ghost var v := ViewOf(known, registry);
      if failed { return; }
      for h := from to to + 1
        invariant transfers == TokenRange(v, history, from, h - 1)
        invariant unsupported == UnsupportedRange(v, history, from, h - 1)
      {
        var block := history(h);
        ghost var before, before' := transfers, unsupported;
        for k := 0 to |block.logs|
          invariant transfers == before + TokensOf(v, h, block, k)
          invariant unsupported == before' + UnsupportedOf(v, h, block, k)
        {
          var l := block.logs[k];
          if l.removed || l.topics != 3 || l.dataSize != 32 { continue; }
          if l.to !in known { continue; }
          if l.amount <= 0 { continue; }
          var contract := Lower(l.contract);
          if contract !in registry {
            unsupported := unsupported + [Unsupported(chain, known[l.to], l.contract, l.txHash, l.index, l.amount, h)];
            continue;
          }
          transfers := transfers
            + [Transfer(chain, registry[contract], known[l.to], l.txHash, l.index, l.amount, h, block.hash)];
        }
      }
    }

    method ScanDeposits(known: Known, registry: map<string, Asset>, from: nat, to: nat)
      returns (failed: bool, transfers: seq<Transfer>, unsupported: seq<Unsupported>)
      requires Valid()
      modifies this
      ensures Valid()
      ensures !failed ==> forall x :: x in transfers <==> Found(ViewOf(known, registry), history, from, to, x)
      ensures !failed ==> unsupported == UnsupportedRange(ViewOf(known, registry), history, from, to)
    {
      transfers, unsupported := [], [];
      if from > to { return false, [], []; }
      var native, tokens: seq<Transfer>;
      failed, native := ScanNativeTransfers(known, from, to);
      if failed { return; }
      failed, tokens, unsupported := ScanErc20Transfers(known, registry, from, to);
      if failed { return; }
      transfers := native + tokens;
      ghost var v := ViewOf(known, registry);
      EthIgnoresRegistry(ViewOf(known, map[]), v, history, from, to);
      forall x ensures x in transfers <==> Found(v, history, from, to, x) { RangeExact(v, history, from, to, x); }
    }
  }

  lemma {:induction false} NothingKnown(v: View, h: nat, b: Block, n: nat)
    requires n <= |b.traces| && (v.known == map[] || !v.traces)
    ensures InternalOf(v, h, b, n) == []
  {
    hide TraceTransfers;
    if n > 0 && v.traces {
      NothingKnown(v, h, b, n - 1);
      TraceNothing(v, h, b, b.traces[n - 1]);
    }
  }

  lemma TraceNothing(v: View, h: nat, b: Block, t: Trace)
    requires v.known == map[]
    ensures TraceTransfers(v, h, b, t) == []
  {
    CollectsNothing(v.known, PlaceOf(v, h, b, t), Visits(t.result.calls, |t.result.calls|, t.result.error != ""), 0);
    hide Visits, Collect;
  }

  lemma {:induction false} CollectsNothing(known: Known, place: Place, vs: seq<Visit>, first: nat)
    requires known == map[]
    ensures Collect(known, place, vs, first) == []
  {
    if vs != [] { CollectsNothing(known, place, vs[..|vs| - 1], first); }
  }

  lemma {:induction false} EthIgnoresRegistry(v: View, v': View, history: History, from: nat, to: int)
    requires v' == v.(registry := v'.registry)
    ensures EthRange(v, history, from, to) == EthRange(v', history, from, to)
    decreases if to < from then 0 else to - from + 1
  {
    if to >= from {
      EthIgnoresRegistry(v, v', history, from, to - 1);
      NativeIgnores(v, v', to, history(to), |history(to).txs|);
      InternalIgnores(v, v', to, history(to), |history(to).traces|);
    }
  }

  lemma {:induction false} NativeIgnores(v: View, v': View, h: nat, b: Block, n: nat)
    requires v' == v.(registry := v'.registry) && n <= |b.txs|
    ensures NativeOf(v, h, b, n) == NativeOf(v', h, b, n)
  {
    if n > 0 { NativeIgnores(v, v', h, b, n - 1); }
  }

  lemma {:induction false} InternalIgnores(v: View, v': View, h: nat, b: Block, n: nat)
    requires v' == v.(registry := v'.registry) && n <= |b.traces|
    ensures InternalOf(v, h, b, n) == InternalOf(v', h, b, n)
  {
    if n > 0 { InternalIgnores(v, v', h, b, n - 1); }
  }

  // ---- on-chain identity ----

  /** A chain's history: one block and place per transaction, one trace per transaction, one log per index of it. */
  ghost predicate Canonical(history: History) {
    && (forall h, h', i, i' | 0 <= i < |history(h).txs| && 0 <= i' < |history(h').txs| ::
          history(h).txs[i].hash == history(h').txs[i'].hash ==> h == h' && i == i')
    && (forall h, h', j, j' | 0 <= j < |history(h).traces| && 0 <= j' < |history(h').traces| ::
          history(h).traces[j].txHash == history(h').traces[j'].txHash ==> h == h' && j == j')
    && (forall h, h', k, k' | 0 <= k < |history(h).logs| && 0 <= k' < |history(h').logs|
        && SameLog(history(h).logs[k], history(h').logs[k']) :: h == h' && k == k')
  }

  predicate SameLog(l: Log, l': Log) { l.txHash == l'.txHash && l.index == l'.index }

  lemma HitShape(v: View, h: nat, b: Block, x: Transfer)
    requires FoundAt(v, h, b, x)
    ensures x.chain == v.chain && x.block == h && x.amount > 0 && x.blockHash == b.hash
    ensures x.logIndex == -1 ==> exists i: nat :: NativeHit(v, h, b, i, x)
    ensures x.logIndex < -1 ==> exists j: nat :: TraceHit(v, h, b, j, x)
    ensures x.logIndex >= 0 ==> exists k: nat :: TokenHit(v, h, b, k, x)
  {
    if j: nat :| TraceHit(v, h, b, j, x) {
      var path :| InternalHit(v, h, b, j, path, x);
    }
  }

  /** Native index -1, internal indices below it and log indices above it never collide: one key, one transfer. */
  lemma KeysUnique(v: View, history: History, h: nat, h': nat, x: Transfer, y: Transfer)
    requires Canonical(history) && FoundAt(v, h, history(h), x) && FoundAt(v, h', history(h'), y)
    requires KeyOf(x) == KeyOf(y)
    ensures x == y
  {
    HitShape(v, h, history(h), x);
    HitShape(v, h', history(h'), y);
    if x.logIndex == -1 {
      var i: nat, i': nat :| NativeHit(v, h, history(h), i, x) && NativeHit(v, h', history(h'), i', y);
    } else if x.logIndex < -1 {
      var j: nat :| TraceHit(v, h, history(h), j, x);
      var j': nat :| TraceHit(v, h', history(h'), j', y);
      InternalUnique(v, history, h, h', j, j', x, y);
    } else {
      var k: nat, k': nat :| TokenHit(v, h, history(h), k, x) && TokenHit(v, h', history(h'), k', y);
    }
  }

  lemma InternalUnique(v: View, history: History, h: nat, h': nat, j: nat, j': nat, x: Transfer, y: Transfer)
    requires Canonical(history) && TraceHit(v, h, history(h), j, x) && TraceHit(v, h', history(h'), j', y)
    requires KeyOf(x) == KeyOf(y)
    ensures x == y
  {
    var p :| InternalHit(v, h, history(h), j, p, x);
    var q :| InternalHit(v, h', history(h'), j', q, y);
    assert history(h).traces[j].txHash == history(h').traces[j'].txHash;
    RankIsOrder(history(h).traces[j].result, p, q);
  }
}
