/**
  One poll of the deposit watcher as a history of transactions, and what a history of polls
  records, promotes, orphans and credits.
 */
module Polls {
  import opened Domain
  import opened Ledger
  import opened Query
  import opened Repositories
  import opened Scan

  const MAX_BLOCKS_PER_SCAN: nat := 2000

  // ---- the transactions of a poll ----

  function Observes(transfers: seq<Transfer>): (ops: seq<Op>)
    ensures |ops| == |transfers|
  {
    seq(|transfers|, i requires 0 <= i < |transfers| => Observe(transfers[i]))
  }

  function Orphans(ids: seq<DepositId>): (ops: seq<Op>)
    ensures |ops| == |ids|
  {
    seq(|ids|, i requires 0 <= i < |ids| => Orphan(ids[i]))
  }

  /** The tags a poll works with. */
  datatype Tags = Tags(latest: nat, safe: nat, finalized: nat) {
    predicate Consistent() { finalized <= safe <= latest }
  }

  /** The last block a poll scans from cursor. */
  function ScanTo(cursor: nat, latest: nat): nat
    requires cursor < latest
  {
    if latest - cursor > MAX_BLOCKS_PER_SCAN then cursor + MAX_BLOCKS_PER_SCAN else latest
  }

  function Scanning(chain: Chain, transfers: seq<Transfer>, to: nat): seq<Op> {
    Observes(transfers) + [SetCursor(chain, ObservedTier, to)]
  }

  function Promoting(chain: Chain, tags: Tags): seq<Op> {
    [PromoteSafe(chain, tags.safe), SetCursor(chain, SafeTier, tags.safe), PromoteFinalized(chain, tags.finalized),
        SetCursor(chain, FinalizedTier, tags.finalized)]
  }

  /** Everything a poll commits before crediting; transfers is None when there was nothing to scan. */
  function Opening(chain: Chain, scanned: Option<(seq<Transfer>, nat)>, tags: Tags): seq<Op> {
    (if scanned.Some? then Scanning(chain, scanned.value.0, scanned.value.1) else []) + Promoting(chain, tags)
  }

  function CursorOf(t: Tables, chain: Chain): nat {
    if (chain, ObservedTier) in t.cursors then t.cursors[(chain, ObservedTier)] else 0
  }

  lemma PromotingRun(t: Tables, chain: Chain, tags: Tags)
    ensures Run(t, Promoting(chain, tags))
         == Apply(Apply(Apply(Apply(t, PromoteSafe(chain, tags.safe)), Op.SetCursor(chain, SafeTier, tags.safe)),
                        PromoteFinalized(chain, tags.finalized)), Op.SetCursor(chain, FinalizedTier, tags.finalized))
  {
    hide Apply;
    var a, b := PromoteSafe(chain, tags.safe), Op.SetCursor(chain, SafeTier, tags.safe);
    var c, d := PromoteFinalized(chain, tags.finalized), Op.SetCursor(chain, FinalizedTier, tags.finalized);
    assert [] + [a] == [a] && [a] + [b] == [a, b] && [a, b] + [c] == [a, b, c] && [a, b, c] + [d] == [a, b, c, d];
    RunSnoc(t, [], a);
    RunSnoc(t, [a], b);
    RunSnoc(t, [a, b], c);
    RunSnoc(t, [a, b, c], d);
  }

  /** A deposit row after both promotions of a poll. */
  function AfterTags(d: Deposit, chain: Chain, tags: Tags): Deposit {
    Promoted(Promoted(d, chain, tags.safe, Observed, Safe), chain, tags.finalized, Safe, Finalized)
  }

  /** The promotions rewrite each deposit row on its own, and touch nothing else but the cursors. */
  lemma PromotedRows(t: Tables, chain: Chain, tags: Tags)
    ensures var s := Run(t, Promoting(chain, tags));
            && s == t.(deposits := s.deposits, cursors := s.cursors) && |s.deposits| == |t.deposits|
            && forall d :: 0 <= d < |t.deposits| ==> s.deposits[d] == AfterTags(t.deposits[d], chain, tags)
  {
    PromotingRun(t, chain, tags);
    var s1 := Apply(t, PromoteSafe(chain, tags.safe));
    var s2 := Apply(s1, Op.SetCursor(chain, SafeTier, tags.safe));
    var s3 := Apply(s2, PromoteFinalized(chain, tags.finalized));
    assert s1 == t.(deposits := s1.deposits) && s2 == s1.(cursors := s2.cursors) && s3 == s2.(deposits := s3.deposits);
    hide Run;
  }

  /** Which rows a poll finds eligible after its promotions. */
  lemma EligibleAfterTags(t: Tables, chain: Chain, tags: Tags, d: DepositId)
    ensures Eligible(Run(t, Promoting(chain, tags)), d) <==>
            Joined(t, d) && AfterTags(t.deposits[d], chain, tags).state == Finalized
  {
    PromotedRows(t, chain, tags);
    hide Run, Promoting;
  }

  /** A transaction of the given chain's watcher: each chain has one. */
  predicate OfWatcher(t: Tables, chain: Chain, op: Op) {
    match op
    case Observe(x) => x.chain == chain
    case PromoteSafe(on, _) => on == chain
    case PromoteFinalized(on, _) => on == chain
    case SetCursor(on, _, _) => on == chain
    case Orphan(d) => d < |t.deposits| && t.deposits[d].transfer.chain == chain
    case Credit(d, _) => d < |t.deposits| && t.deposits[d].transfer.chain == chain
    case _ => false
  }

  // ---- the reorg check ----

  /** The node's answers at each height: the hash there now, or None when the height is gone. */
  type Heads = nat -> Option<string>

  /** The stored hash is known and the chain no longer has that block at that height. */
  predicate Stale(t: Tables, heads: Heads, d: DepositId)
    requires d < |t.deposits|
  {
    var x := t.deposits[d].transfer;
    x.blockHash != "" && heads(x.block) != Some(x.blockHash)
  }

  /** The uncached check: the stale ones of the listed deposits, in order. */
  function StaleOf(t: Tables, heads: Heads, listed: seq<DepositId>): seq<DepositId>
    requires forall i :: 0 <= i < |listed| ==> listed[i] < |t.deposits|
  {
    if listed == [] then []
    else
      StaleOf(t, heads, listed[..|listed| - 1])
      + if Stale(t, heads, listed[|listed| - 1]) then [listed[|listed| - 1]] else []
  }

  lemma {:induction false} StaleExact(t: Tables, heads: Heads, listed: seq<DepositId>, d: DepositId)
    requires forall i :: 0 <= i < |listed| ==> listed[i] < |t.deposits|
    ensures d in StaleOf(t, heads, listed) <==> d in listed && Stale(t, heads, d)
  {
    if listed != [] { StaleExact(t, heads, listed[..|listed| - 1], d); }
  }

  // ---- histories ----

  lemma ObservesSnoc(t: Tables, transfers: seq<Transfer>, x: Transfer)
    ensures Run(t, Observes(transfers + [x])) == Apply(Run(t, Observes(transfers)), Observe(x))
  {
    assert Observes(transfers + [x]) == Observes(transfers) + [Observe(x)];
    RunSnoc(t, Observes(transfers), Observe(x));
  }

  lemma OrphansSnoc(t: Tables, ids: seq<DepositId>, d: DepositId)
    ensures Run(t, Orphans(ids + [d])) == Apply(Run(t, Orphans(ids)), Orphan(d))
  {
    assert Orphans(ids + [d]) == Orphans(ids) + [Orphan(d)];
    RunSnoc(t, Orphans(ids), Orphan(d));
  }

  // ---- what scanning records ----

  /** Some row of the chain records x. */
  ghost predicate Recorded(t: Tables, x: Transfer) { exists d: nat :: RowRecords(t, d, x) }

  predicate RowRecords(t: Tables, d: nat, x: Transfer) { d < |t.deposits| && t.deposits[d].transfer == x }

  /** No transaction but an observation adds a deposit row, and none changes what a row records. */
  lemma RecordedStep(t: Tables, op: Op, x: Transfer)
    ensures Recorded(Apply(t, op), x) <==> Recorded(t, x) || (op == Observe(x) && Check(t, op) == None)
  {
    if Check(t, op) == None {
      TransfersStep(t, op);
      var t' := Effect(t, op);
      hide Check, Effect;
      if Recorded(t, x) {
        var d: nat :| RowRecords(t, d, x);
        assert RowRecords(t', d, x);
      }
      if Recorded(t', x) {
        var d: nat :| RowRecords(t', d, x);
        assert d < |t.deposits| ==> RowRecords(t, d, x);
      }
      if op == Observe(x) { assert RowRecords(t', |t.deposits|, x); }
    }
  }

  lemma TransfersStep(t: Tables, op: Op)
    requires Check(t, op) == None
    ensures |Effect(t, op).deposits| == |t.deposits| + if op.Observe? then 1 else 0
    ensures forall d :: 0 <= d < |t.deposits| ==> Effect(t, op).deposits[d].transfer == t.deposits[d].transfer
    ensures op.Observe? ==> Effect(t, op).deposits[|t.deposits|].transfer == op.transfer
  {
  }

  /** Rows of different recorded transfers have different on-chain keys. */
  ghost predicate KeysApart(t: Tables, transfers: seq<Transfer>) {
    forall x, y :: x in transfers && (y in transfers || Recorded(t, y)) && KeyOf(x) == KeyOf(y) ==> x == y
  }

  /** Observing a batch records all of it and nothing else, whatever was recorded before. */
  lemma {:induction false} ObservedExactly(t: Tables, transfers: seq<Transfer>, y: Transfer)
    requires KeysApart(t, transfers) && forall x :: x in transfers ==> x.amount > 0
    ensures Recorded(Run(t, Observes(transfers)), y) <==> Recorded(t, y) || y in transfers
  {
    if transfers == [] { return; }
    var init, x := transfers[..|transfers| - 1], transfers[|transfers| - 1];
    assert transfers == init + [x];
    ObservedExactly(t, init, y);
    ObservesSnoc(t, init, x);
    var s := Run(t, Observes(init));
    RecordedStep(s, Observe(x), y);
    if y == x && Check(s, Observe(x)) != None {
      var d :| 0 <= d < |s.deposits| && KeyOf(s.deposits[d].transfer) == KeyOf(x) && s.deposits[d].state != Orphaned;
      var z := s.deposits[d].transfer;
      assert RowRecords(s, d, z);
      ObservedExactly(t, init, z);
      assert z == x;
    }
  }

  // ---- a whole poll ----

  /** What a successful poll worked with: the tags, the scan if any, and the deposits it credited. */
  datatype Poll = Poll(tags: Tags, scanned: Option<(seq<Transfer>, nat)>, ids: seq<DepositId>, now: Time)

  function PollOps(chain: Chain, poll: Poll): seq<Op> {
    Opening(chain, poll.scanned, poll.tags) + Credits(poll.ids, poll.now)
  }

  /** The scan covers exactly the next capped range, or there is nothing to scan. */
  ghost predicate ScanOk(v: View, history: History, t: Tables, poll: Poll) {
    var cursor := CursorOf(t, v.chain);
    if cursor < poll.tags.latest then
      && poll.scanned.Some? && poll.scanned.value.1 == ScanTo(cursor, poll.tags.latest)
      && forall x :: x in poll.scanned.value.0 <==> Found(v, history, cursor + 1, poll.scanned.value.1, x)
    else
      poll.scanned == None
  }

  ghost predicate ValidPoll(v: View, history: History, t: Tables, poll: Poll) {
    && poll.tags.Consistent() && CursorOf(t, v.chain) <= poll.tags.latest
    && ScanOk(v, history, t, poll)
    && var s := Run(t, Opening(v.chain, poll.scanned, poll.tags));
    && OldestFirst(EligibleAgesOf(s, v.chain), poll.ids, MAX_CREDITS_PER_POLL)
    && AllSucceed(s, Credits(poll.ids, poll.now))
  }
}
