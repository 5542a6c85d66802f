/**
  Asking whether a transaction is final takes two reads: its receipt, then the finalized tag. What
  the pair of answers is worth, over all chain states the two reads can meet.
 */
module Receipts {
  import opened Domain

  /** A canonical block: its hash, and the status of each transaction in it. */
  datatype Block = Block(hash: string, outcomes: map<string, bool>)

  /** What a node answers from: the canonical blocks by number, and the number of the finalized one. */
  datatype Chainview = Chainview(blocks: seq<Block>, finalized: nat)

  datatype Receipt = Receipt(number: nat, blockHash: string, status: bool)

  /** A transaction is in one block at most, and the finalized block exists. */
  predicate Valid(v: Chainview) {
    && v.finalized < |v.blocks|
    && forall h, h' :: 0 <= h < h' < |v.blocks| ==> v.blocks[h].outcomes.Keys !! v.blocks[h'].outcomes.Keys
  }

  /** A block hash commits to the block and everything below it. */
  predicate HashesCommit(v: Chainview, v': Chainview) {
    forall h :: 0 <= h < |v.blocks| && h < |v'.blocks| && v.blocks[h].hash == v'.blocks[h].hash ==>
            v.blocks[..h + 1] == v'.blocks[..h + 1]
  }

  /** v' is what the chain may have become after v: anything above the finalized block may have been replaced. */
  predicate Later(v: Chainview, v': Chainview) {
    && Valid(v) && Valid(v') && HashesCommit(v, v')
    && v.finalized <= v'.finalized && v'.blocks[..v.finalized + 1] == v.blocks[..v.finalized + 1]
  }

  /** eth_getTransactionReceipt answers r. */
  predicate HasReceipt(v: Chainview, tx: string, r: Receipt) {
    && r.number < |v.blocks| && v.blocks[r.number].hash == r.blockHash
    && tx in v.blocks[r.number].outcomes && v.blocks[r.number].outcomes[tx] == r.status
  }

  /** GetFinalizedReceipt's answer from its two reads: Some(success) when found. */
  function Answer(receipt: Option<Receipt>, finalized: nat): Option<bool> {
    if receipt.Some? && receipt.value.number <= finalized then Some(receipt.value.status) else None
  }

  /** tx is final with the given status. */
  predicate FinalWith(v: Chainview, tx: string, status: bool) {
    exists h :: 0 <= h < |v.blocks| && h <= v.finalized && HasOutcome(v.blocks[h], tx, status)
  }

  predicate HasOutcome(b: Block, tx: string, status: bool) { tx in b.outcomes && b.outcomes[tx] == status }

  /** When the canonical block at the receipt's number still has the receipt's hash, a found answer is final. */
  lemma CanonicalIsFinal(v: Chainview, v': Chainview, tx: string, r: Receipt)
    requires Valid(v) && Valid(v') && HashesCommit(v, v') && HasReceipt(v, tx, r) && Answer(Some(r), v'.finalized).Some?
    requires v'.blocks[r.number].hash == r.blockHash
    ensures HasReceipt(v', tx, r) && FinalWith(v', tx, r.status) && !FinalWith(v', tx, !r.status)
  {
    var h := r.number;
    assert v.blocks[..h + 1][h] == v'.blocks[..h + 1][h];
    assert HasOutcome(v'.blocks[h], tx, r.status);
  }

  /** In every later chain state that answers found with the given hash at the receipt's number, the answer is final. */
  ghost predicate HashSuffices(v: Chainview, tx: string, r: Receipt, hash: string) {
    forall v' :: Later(v, v') && FoundWith(v', r, hash) ==> FinalWith(v', tx, r.status)
  }

  predicate FoundWith(v: Chainview, r: Receipt, hash: string) {
    Answer(Some(r), v.finalized).Some? && r.number < |v.blocks| && v.blocks[r.number].hash == hash
  }

  /**
    Seeing a hash at the receipt's number when the answer is found tells that the answer is right
    if and only if it is the receipt's own block hash, or the block was final already when the
    receipt was read. That is one header read; the code does not make it.
   */
  lemma HashDecides(v: Chainview, tx: string, r: Receipt, hash: string)
    requires Valid(v) && HasReceipt(v, tx, r)
    ensures HashSuffices(v, tx, r, hash) <==> hash == r.blockHash || r.number <= v.finalized
  {
    if r.number <= v.finalized {
      forall v' | Later(v, v') && FoundWith(v', r, hash) ensures FinalWith(v', tx, r.status) {
        FinalStays(v, v', tx, r);
      }
    } else if hash == r.blockHash {
      forall v' | Later(v, v') && FoundWith(v', r, hash) ensures FinalWith(v', tx, r.status) {
        CanonicalIsFinal(v, v', tx, r);
      }
    } else {
      ReplacedIsLater(v, tx, r, hash);
      assert FoundWith(Replaced(v, tx, r, hash), r, hash);
    }
  }

  /** What is final stays. */
  lemma FinalStays(v: Chainview, v': Chainview, tx: string, r: Receipt)
    requires Later(v, v') && HasReceipt(v, tx, r) && r.number <= v.finalized
    ensures FinalWith(v', tx, r.status)
  {
    assert v'.blocks[..v.finalized + 1][r.number] == v.blocks[..v.finalized + 1][r.number];
    assert HasOutcome(v'.blocks[r.number], tx, r.status);
  }

  /** Some other hash. */
  function Another(hash: string): (other: string)
    ensures other != hash
  {
    assert |hash + "'"| == |hash| + 1;
    hash + "'"
  }

  /**
    The chain that replaces everything above v's finalized block, empty up to the receipt's number,
    where a block with the given hash finalizes tx with the opposite status.
   */
  function Replaced(v: Chainview, tx: string, r: Receipt, hash: string): Chainview
    requires v.finalized < r.number < |v.blocks|
  {
    var blocks := seq(r.number, h requires 0 <= h < r.number =>
      if h <= v.finalized then v.blocks[h] else Block(Another(v.blocks[h].hash), map[]));
    Chainview(blocks + [Block(hash, map[tx := !r.status])], r.number)
  }

  lemma ReplacedBlocks(v: Chainview, tx: string, r: Receipt, hash: string)
    requires v.finalized < r.number < |v.blocks| && hash != v.blocks[r.number].hash
    ensures var v' := Replaced(v, tx, r, hash);
            && |v'.blocks| == r.number + 1 && v'.finalized == r.number
            && v'.blocks[..v.finalized + 1] == v.blocks[..v.finalized + 1]
            && (forall h :: 0 <= h <= v.finalized ==> v'.blocks[h] == v.blocks[h])
            && (forall h :: v.finalized < h <= r.number ==> v'.blocks[h].hash != v.blocks[h].hash)
            && (forall h :: v.finalized < h < r.number ==> v'.blocks[h].outcomes == map[])
            && v'.blocks[r.number] == Block(hash, map[tx := !r.status])
  {
  }

  lemma ReplacedIsLater(v: Chainview, tx: string, r: Receipt, hash: string)
    requires Valid(v) && HasReceipt(v, tx, r) && v.finalized < r.number && hash != r.blockHash
    ensures Later(v, Replaced(v, tx, r, hash)) && FoundWith(Replaced(v, tx, r, hash), r, hash)
    ensures !FinalWith(Replaced(v, tx, r, hash), tx, r.status)
  {
    ReplacedBlocks(v, tx, r, hash);
    var v' := Replaced(v, tx, r, hash);
    hide Replaced;
    forall h | 0 <= h < r.number ensures tx !in v'.blocks[h].outcomes {
      assert h <= v.finalized ==> v.blocks[h].outcomes.Keys !! v.blocks[r.number].outcomes.Keys;
    }
    SharedPrefix(v, v', v.finalized + 1);
  }

  lemma SharedPrefix(v: Chainview, v': Chainview, n: nat)
    requires n <= |v.blocks| && n <= |v'.blocks| && v'.blocks[..n] == v.blocks[..n]
    requires forall h :: n <= h < |v'.blocks| && h < |v.blocks| ==> v'.blocks[h].hash != v.blocks[h].hash
    ensures HashesCommit(v, v')
  {
    forall h | 0 <= h < |v.blocks| && h < |v'.blocks| && v.blocks[h].hash == v'.blocks[h].hash
      ensures v.blocks[..h + 1] == v'.blocks[..h + 1]
    {
      assert v.blocks[..h + 1] == v.blocks[..n][..h + 1] && v'.blocks[..h + 1] == v'.blocks[..n][..h + 1];
    }
  }

  /**
    Whatever the chain does between the reads, the answer is right when found, if and only if the
    receipt's block was already finalized when the receipt was read.
   */
  lemma ReadOrderDecides(v: Chainview, tx: string, r: Receipt)
    requires Valid(v) && HasReceipt(v, tx, r)
    ensures (forall v' :: Later(v, v') && Answer(Some(r), v'.finalized).Some? ==> FinalWith(v', tx, r.status)) <==>
            r.number <= v.finalized
  {
    if r.number <= v.finalized {
      forall v' | Later(v, v') ensures FinalWith(v', tx, r.status) { FinalStays(v, v', tx, r); }
    } else {
      ReplacedIsLater(v, tx, r, Another(r.blockHash));
    }
  }

  /** Reading the tag first and the receipt second is always right, then and ever after. */
  lemma TagFirstIsRight(v: Chainview, v': Chainview, v'': Chainview, tx: string, r: Receipt)
    requires Later(v, v') && Later(v', v'') && HasReceipt(v', tx, r) && Answer(Some(r), v.finalized).Some?
    ensures FinalWith(v'', tx, r.status) && !FinalWith(v'', tx, !r.status)
  {
    var h := r.number;
    assert v''.blocks[..v'.finalized + 1][h] == v'.blocks[..v'.finalized + 1][h];
    assert HasOutcome(v''.blocks[h], tx, r.status);
    forall k | 0 <= k < |v''.blocks| && k != h ensures tx !in v''.blocks[k].outcomes {
      assert if k < h then v''.blocks[k].outcomes.Keys !! v''.blocks[h].outcomes.Keys
          else v''.blocks[h].outcomes.Keys !! v''.blocks[k].outcomes.Keys;
    }
  }
}
