/**
  What whole histories of polls guarantee: on a fixed chain the recorded deposits are exactly what
  one scan of everything up to the cursor would find, ranges are contiguous, backlogs drain in the
  stated number of polls, and the reorg check decides what the shipped poll gets wrong.
 */
module DepositHistory {
  import opened Domain
  import opened Totals
  import opened Ledger
  import opened Repositories
  import opened CallTree
  import opened Scan
  import opened Polls
  import opened Watcher

  // ---- recorded deposits are one scan ----

  /** The rows of the chain record exactly what one scan of blocks 1 to the observed cursor finds. */
  ghost predicate Synced(v: View, history: History, t: Tables) {
    forall x: Transfer :: x.chain == v.chain ==> (Recorded(t, x) <==> Found(v, history, 1, CursorOf(t, v.chain), x))
  }

  /** A transaction that neither observes a deposit of the chain nor moves its observed cursor. */
  predicate Elsewhere(chain: Chain, op: Op) {
    match op
    case Observe(x) => x.chain != chain
    case SetCursor(on, tier, _) => !(on == chain && tier == ObservedTier)
    case _ => true
  }

  lemma CursorStep(t: Tables, chain: Chain, op: Op)
    ensures CursorOf(Apply(t, op), chain)
         == if op.SetCursor? && op.chain == chain && op.tier == ObservedTier then op.block else CursorOf(t, chain)
  {
  }

  /** Other processes' transactions leave the chain's records and cursor alone. */
  lemma {:induction false} ElsewhereKeeps(t: Tables, chain: Chain, ops: seq<Op>, x: Transfer)
    requires (forall i :: 0 <= i < |ops| ==> Elsewhere(chain, ops[i])) && x.chain == chain
    ensures Recorded(Run(t, ops), x) <==> Recorded(t, x)
    ensures CursorOf(Run(t, ops), chain) == CursorOf(t, chain)
  {
    if ops != [] {
      var init, op := ops[..|ops| - 1], ops[|ops| - 1];
      ElsewhereKeeps(t, chain, init, x);
      RecordedStep(Run(t, init), op, x);
      CursorStep(Run(t, init), chain, op);
      hide Apply;
    }
  }

  lemma ElsewhereSynced(v: View, history: History, t: Tables, ops: seq<Op>)
    requires Synced(v, history, t) && forall i :: 0 <= i < |ops| ==> Elsewhere(v.chain, ops[i])
    ensures Synced(v, history, Run(t, ops))
  {
    hide Run, Recorded;
    forall x: Transfer | x.chain == v.chain
      ensures Recorded(Run(t, ops), x) <==> Found(v, history, 1, CursorOf(Run(t, ops), v.chain), x)
    {
      ElsewhereKeeps(t, v.chain, ops, x);
    }
  }

  lemma FoundSplits(v: View, history: History, a: nat, b: nat, c: nat, x: Transfer)
    requires a <= b + 1 && b <= c
    ensures Found(v, history, a, c, x) <==> Found(v, history, a, b, x) || Found(v, history, b + 1, c, x)
  {
    hide FoundAt;
  }

  lemma FoundKeys(v: View, history: History, a: nat, b: nat, c: nat, d: nat, x: Transfer, y: Transfer)
    requires Canonical(history) && Found(v, history, a, b, x) && Found(v, history, c, d, y) && KeyOf(x) == KeyOf(y)
    ensures x == y
  {
    hide FoundAt, Canonical;
    var h :| a <= h <= b && FoundAt(v, h, history(h), x);
    var h' :| c <= h' <= d && FoundAt(v, h', history(h'), y);
    KeysUnique(v, history, h, h', x, y);
  }

  /** The scanning phase keeps records and cursor in step. */
  lemma ScanningSynced(v: View, history: History, t: Tables, transfers: seq<Transfer>, to: nat)
    requires Canonical(history) && Synced(v, history, t) && CursorOf(t, v.chain) < to
    requires forall x :: x in transfers <==> Found(v, history, CursorOf(t, v.chain) + 1, to, x)
    ensures Synced(v, history, Run(t, Scanning(v.chain, transfers, to)))
    ensures CursorOf(Run(t, Scanning(v.chain, transfers, to)), v.chain) == to
  {
    var cursor := CursorOf(t, v.chain);
    FoundPositive(v, history, cursor + 1, to, transfers);
    var set_ := Op.SetCursor(v.chain, ObservedTier, to);
    RunSnoc(t, Observes(transfers), set_);
    var s := Run(t, Observes(transfers));
    CursorStep(s, v.chain, set_);
    assert KeysApart(t, transfers) by { ScanKeysApart(v, history, t, transfers, to); }
    hide Run, Recorded, KeysApart, Apply;
    forall x: Transfer | x.chain == v.chain ensures Recorded(Apply(s, set_), x) <==> Found(v, history, 1, to, x) {
      RecordedStep(s, set_, x);
      ObservedExactly(t, transfers, x);
      FoundSplits(v, history, 1, cursor, to, x);
    }
  }

  lemma ScanKeysApart(v: View, history: History, t: Tables, transfers: seq<Transfer>, to: nat)
    requires Canonical(history) && Synced(v, history, t)
    requires forall x :: x in transfers <==> Found(v, history, CursorOf(t, v.chain) + 1, to, x)
    ensures KeysApart(t, transfers)
  {
    hide Recorded, Canonical;
    var cursor := CursorOf(t, v.chain);
    FoundPositive(v, history, cursor + 1, to, transfers);
    hide Found;
    forall x, y | x in transfers && (y in transfers || Recorded(t, y)) && KeyOf(x) == KeyOf(y) ensures x == y {
      if y in transfers {
        FoundKeys(v, history, cursor + 1, to, cursor + 1, to, x, y);
      } else {
        FoundKeys(v, history, cursor + 1, to, 1, cursor, x, y);
      }
    }
  }

  lemma RestElsewhere(chain: Chain, tags: Tags, ids: seq<DepositId>, now: Time)
    ensures forall i :: 0 <= i < |Promoting(chain, tags) + Credits(ids, now)| ==>
            Elsewhere(chain, (Promoting(chain, tags) + Credits(ids, now))[i])
  {
  }

  /** The observed cursor after a poll. */
  function NextCursor(cursor: nat, latest: nat): nat { if cursor < latest then ScanTo(cursor, latest) else cursor }

  /** Every successful poll keeps the records in step with its cursor, on any fixed history, addresses and registry. */
  lemma PollSynced(v: View, history: History, t: Tables, poll: Poll)
    requires Canonical(history) && Synced(v, history, t) && ValidPoll(v, history, t, poll)
    ensures Synced(v, history, Run(t, PollOps(v.chain, poll)))
    ensures CursorOf(Run(t, PollOps(v.chain, poll)), v.chain) == NextCursor(CursorOf(t, v.chain), poll.tags.latest)
  {
    var rest := Promoting(v.chain, poll.tags) + Credits(poll.ids, poll.now);
    var first := ScanOps(v.chain, poll);
    PollSplits(t, v.chain, poll);
    RestElsewhere(v.chain, poll.tags, poll.ids, poll.now);
    ScanPartSynced(v, history, t, poll);
    hide Run, Synced, ValidPoll, PollOps, ScanOps, Promoting, Credits;
    ElsewhereSynced(v, history, Run(t, first), rest);
    ElsewhereCursor(Run(t, first), v.chain, rest);
  }

  function ScanOps(chain: Chain, poll: Poll): seq<Op> {
    if poll.scanned.Some? then Scanning(chain, poll.scanned.value.0, poll.scanned.value.1) else []
  }

  lemma PollSplits(t: Tables, chain: Chain, poll: Poll)
    ensures Run(t, PollOps(chain, poll))
            == Run(Run(t, ScanOps(chain, poll)), Promoting(chain, poll.tags) + Credits(poll.ids, poll.now))
  {
    var rest := Promoting(chain, poll.tags) + Credits(poll.ids, poll.now);
    assert PollOps(chain, poll) == ScanOps(chain, poll) + rest;
    RunConcat(t, ScanOps(chain, poll), rest);
  }

  lemma ScanPartSynced(v: View, history: History, t: Tables, poll: Poll)
    requires Canonical(history) && Synced(v, history, t) && ValidPoll(v, history, t, poll)
    ensures Synced(v, history, Run(t, ScanOps(v.chain, poll)))
    ensures CursorOf(Run(t, ScanOps(v.chain, poll)), v.chain) == NextCursor(CursorOf(t, v.chain), poll.tags.latest)
  {
    assert ScanOk(v, history, t, poll) && CursorOf(t, v.chain) <= poll.tags.latest;
    RunEmpty(t);
    hide Run, Synced, ValidPoll, Scanning, Canonical;
    if poll.scanned.Some? {
      ScanningSynced(v, history, t, poll.scanned.value.0, poll.scanned.value.1);
    }
  }

  lemma ElsewhereCursor(t: Tables, chain: Chain, ops: seq<Op>)
    requires forall i :: 0 <= i < |ops| ==> Elsewhere(chain, ops[i])
    ensures CursorOf(Run(t, ops), chain) == CursorOf(t, chain)
  {
    ElsewhereKeeps(t, chain, ops, Transfer(chain, Eth, "", "", 0, 0, 0, ""));
  }

  // ---- ranges over many polls ----

  /** Ranges follow one another without gap or overlap from after start up to end, at most 2000 blocks each. */
  predicate Contiguous(ranges: seq<(nat, nat)>, start: nat, end: nat) {
    && (forall i :: 0 <= i < |ranges| ==> ranges[i].0 <= ranges[i].1 < ranges[i].0 + MAX_BLOCKS_PER_SCAN)
    && (forall i :: 1 <= i < |ranges| ==> ranges[i].0 == ranges[i - 1].1 + 1)
    && (if ranges == [] then start == end else ranges[0].0 == start + 1 && ranges[|ranges| - 1].1 == end)
  }

  lemma RangesGrow(ranges: seq<(nat, nat)>, start: nat, from: nat, to: nat)
    requires Contiguous(ranges, start, from) && from < to <= from + MAX_BLOCKS_PER_SCAN
    ensures Contiguous(ranges + [(from + 1, to)], start, to)
  {
  }

  /** One turn of the poll loop: whatever other processes committed since, then a poll that may fail. */
  method PollOnce(w: TrackDeposits, known: Known, registry: map<string, Asset>, head: Option<Tags>, others: seq<Op>,
          now: Time,
                  ghost start: nat, ghost ranges: seq<(nat, nat)>)
    returns (ghost more: seq<(nat, nat)>)
    requires w.Valid() && Canonical(w.scanner.history) && Contiguous(ranges, start, CursorOf(w.db.Rows(), w.chain))
    requires Synced(w.scanner.ViewOf(known, registry), w.scanner.history, w.db.Rows())
    requires forall j :: 0 <= j < |others| ==> Elsewhere(w.chain, others[j])
    modifies w.db, w.scanner
    ensures w.Valid() && Synced(w.scanner.ViewOf(known, registry), w.scanner.history, w.db.Rows())
    ensures Contiguous(more, start, CursorOf(w.db.Rows(), w.chain))
  {
    ghost var v, history := w.scanner.ViewOf(known, registry), w.scanner.history;
    hide Run, Synced, ValidPoll, Canonical, Contiguous, PollOps, ScanTo, CursorOf;
    ElsewhereSynced(v, history, w.db.Rows(), others);
    ElsewhereCursor(w.db.Rows(), w.chain, others);
    w.db.Load(Run(w.db.Rows(), others));
    ghost var before := w.db.Rows();
    var report, poll := w.Execute(known, registry, head, now);
    more := ranges;
    if report.Some? {
      PollSynced(v, history, before, poll);
      ghost var from, to := CursorOf(before, w.chain), CursorOf(w.db.Rows(), w.chain);
      if from < to {
        NextWithin(from, poll.tags.latest);
        RangesGrow(ranges, start, from, to);
        more := ranges + [(from + 1, to)];
      }
    }
  }

  lemma NextWithin(cursor: nat, latest: nat)
    ensures cursor <= NextCursor(cursor, latest) <= cursor + MAX_BLOCKS_PER_SCAN
  {
  }

  /** The poll loop: any heads, any failures, any transactions of other processes in between. */
  method PollLoop(w: TrackDeposits, known: Known, registry: map<string, Asset>, heads: seq<Option<Tags>>,
          others: seq<seq<Op>>, now: Time)
    returns (ghost ranges: seq<(nat, nat)>)
    requires w.Valid() && Canonical(w.scanner.history) && |others| == |heads|
    requires Synced(w.scanner.ViewOf(known, registry), w.scanner.history, w.db.Rows())
    requires forall i :: 0 <= i < |others| ==> forall j :: 0 <= j < |others[i]| ==> Elsewhere(w.chain, others[i][j])
    modifies w.db, w.scanner
    ensures w.Valid() && Synced(w.scanner.ViewOf(known, registry), w.scanner.history, w.db.Rows())
    ensures Contiguous(ranges, CursorOf(old(w.db.Rows()), w.chain), CursorOf(w.db.Rows(), w.chain))
  {
    ranges := [];
    ghost var start := CursorOf(w.db.Rows(), w.chain);
    for i := 0 to |heads|
      invariant w.Valid() && Synced(w.scanner.ViewOf(known, registry), w.scanner.history, w.db.Rows())
      invariant Contiguous(ranges, start, CursorOf(w.db.Rows(), w.chain))
    {
      ranges := PollOnce(w, known, registry, heads[i], others[i], now, start, ranges);
    }
  }

  // ---- how many polls ----

  /** One turn of a chain's watcher: what others committed, and a successful poll. A failed poll commits nothing. */
  datatype Turn = Turn(others: seq<Op>, poll: Poll)

  function BeforePoll(t: Tables, turn: Turn): Tables { Run(t, turn.others) }

  function AfterTurn(t: Tables, chain: Chain, turn: Turn): Tables {
    Run(BeforePoll(t, turn), PollOps(chain, turn.poll))
  }

  function AfterTurns(t: Tables, chain: Chain, turns: seq<Turn>): Tables {
    if turns == [] then t else AfterTurn(AfterTurns(t, chain, turns[..|turns| - 1]), chain, turns[|turns| - 1])
  }

  ghost predicate ValidTurn(v: View, history: History, t: Tables, turn: Turn) {
    (forall j :: 0 <= j < |turn.others| ==> Elsewhere(v.chain, turn.others[j]))
        && ValidPoll(v, history, BeforePoll(t, turn), turn.poll)
  }

  ghost predicate ValidTurns(v: View, history: History, t: Tables, turns: seq<Turn>) {
    turns != [] ==>
      var init := turns[..|turns| - 1];
      ValidTurns(v, history, t, init) && ValidTurn(v, history, AfterTurns(t, v.chain, init), turns[|turns| - 1])
  }

  lemma TurnSynced(v: View, history: History, t: Tables, turn: Turn)
    requires Canonical(history) && Synced(v, history, t) && ValidTurn(v, history, t, turn)
    ensures Synced(v, history, AfterTurn(t, v.chain, turn))
    ensures CursorOf(AfterTurn(t, v.chain, turn), v.chain) == NextCursor(CursorOf(t, v.chain), turn.poll.tags.latest)
    ensures CursorOf(t, v.chain) <= turn.poll.tags.latest
  {
    hide Run, Synced, PollOps, Canonical, CursorOf;
    ElsewhereSynced(v, history, t, turn.others);
    ElsewhereCursor(t, v.chain, turn.others);
    PollSynced(v, history, BeforePoll(t, turn), turn.poll);
  }

  function Least(a: nat, b: nat): nat { if a < b then a else b }

  /**
    Any number of successful polls, with other processes' transactions and failed polls between
    them: the records stay exactly one scan up to the cursor. If no poll finds the head below
    target, k polls bring the cursor to target or 2000 k blocks on, whichever comes first; if the
    head stays at target, they bring it exactly there, and reach it exactly when k is at least the
    ceiling of the backlog over 2000.
   */
  lemma {:induction false} CatchUp(v: View, history: History, t: Tables, turns: seq<Turn>, target: nat)
    requires Canonical(history) && Synced(v, history, t) && ValidTurns(v, history, t, turns)
    requires CursorOf(t, v.chain) <= target && forall i :: 0 <= i < |turns| ==> target <= turns[i].poll.tags.latest
    ensures var start, s := CursorOf(t, v.chain), AfterTurns(t, v.chain, turns);
            && Synced(v, history, s)
            && CursorOf(s, v.chain) >= Least(start + MAX_BLOCKS_PER_SCAN * |turns|, target)
            && ((forall i :: 0 <= i < |turns| ==> turns[i].poll.tags.latest == target) ==>
                  && CursorOf(s, v.chain) == Least(start + MAX_BLOCKS_PER_SCAN * |turns|, target)
                  && (CursorOf(s, v.chain) == target <==> |turns| >= CeilDiv(target - start, MAX_BLOCKS_PER_SCAN)))
  {
    hide Synced, ValidTurn, Canonical, CursorOf, AfterTurn;
    if turns != [] {
      var init, last := turns[..|turns| - 1], turns[|turns| - 1];
      CatchUp(v, history, t, init, target);
      TurnSynced(v, history, AfterTurns(t, v.chain, init), last);
    }
  }
}
