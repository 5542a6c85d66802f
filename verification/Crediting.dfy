/**
  Crediting drains its backlog 500 at a time and never fails on a reachable database; and the
  reorg check, which the shipped poll skips, is what keeps a replaced block's deposit from credit.
 */
module Crediting {
  import opened Domain
  import opened Totals
  import opened Ledger
  import opened Query
  import opened Repositories
  import opened Scan
  import opened Polls
  import opened DepositHistory
  import FirstCustomer
  import Records

  // ---- crediting never fails ----

  predicate AmountsPositive(t: Tables) { forall d :: 0 <= d < |t.deposits| ==> t.deposits[d].transfer.amount > 0 }

  lemma PositiveStep(t: Tables, op: Op)
    requires AmountsPositive(t)
    ensures AmountsPositive(Apply(t, op))
  {
    if Check(t, op) == None {
      TransfersStep(t, op);
      assert op.Observe? ==> op.transfer.amount > 0;
      hide Check, Effect;
    }
  }

  lemma {:induction false} AlwaysPositive(t: Tables, ops: seq<Op>)
    requires Fresh(t)
    ensures AmountsPositive(Run(t, ops))
  {
    if ops != [] {
      AlwaysPositive(t, ops[..|ops| - 1]);
      PositiveStep(Run(t, ops[..|ops| - 1]), ops[|ops| - 1]);
    }
  }

  /** On every reachable database an eligible deposit can be credited: its cause is free and its amount positive. */
  lemma EligibleIsCreditable(t: Tables, ops: seq<Op>, d: DepositId, now: Time)
    requires Fresh(t) && Eligible(Run(t, ops), d)
    ensures Check(Run(t, ops), Credit(d, now)) == None
  {
    var s := Run(t, ops);
    Records.AlwaysExact(t, ops);
    AlwaysPositive(t, ops);
    assert DepositCredit(d) in Causes(s.journal) ==> Records.Justified(s, DepositCredit(d));
  }

  lemma {:induction false} CreditsSucceed(t: Tables, ops: seq<Op>, ids: seq<DepositId>, now: Time)
    requires Fresh(t)
    requires forall i :: 0 <= i < |ids| ==> Eligible(Run(t, ops), ids[i])
    requires forall i, j :: 0 <= i < j < |ids| ==> ids[i] != ids[j]
    ensures AllSucceed(Run(t, ops), Credits(ids, now))
    ensures forall d :: Eligible(Run(Run(t, ops), Credits(ids, now)), d) <==> Eligible(Run(t, ops), d) && d !in ids
    ensures Run(Run(t, ops), Credits(ids, now)).deposits == CreditedAll(Run(t, ops).deposits, ids)
  {
    hide Check, Effect, Eligible;
    if ids == [] {
      assert Credits(ids, now) == [];
    } else {
      var init, d := ids[..|ids| - 1], ids[|ids| - 1];
      var s := Run(t, ops);
      CreditsSucceed(t, ops, init, now);
      assert d !in init;
      RunConcat(t, ops, Credits(init, now));
      EligibleIsCreditable(t, ops + Credits(init, now), d, now);
      CreditsAppend(s, init, d, now);
      assert ids == init + [d];
      CreditEligible(Run(s, Credits(init, now)), d, now);
      CreditedAllSnoc(s.deposits, init, d);
    }
  }

  lemma CreditedAllSnoc(ds: seq<Deposit>, ids: seq<DepositId>, d: DepositId)
    requires d < |ds|
    ensures CreditedAll(ds, ids + [d]) == CreditedAll(ds, ids)[d := CreditedAll(ds, ids)[d].(state := Credited)]
  {
  }

  /** The deposits table with the given rows credited. */
  function CreditedAll(ds: seq<Deposit>, ids: seq<DepositId>): (ds': seq<Deposit>)
    ensures |ds'| == |ds|
  {
    seq(|ds|, d requires 0 <= d < |ds| => if d in ids then ds[d].(state := Credited) else ds[d])
  }

  /** Crediting one deposit makes it, and it alone, no longer eligible. */
  lemma CreditEligible(t: Tables, d: DepositId, now: Time)
    requires Check(t, Credit(d, now)) == None
    ensures d < |t.deposits| && Effect(t, Credit(d, now)).deposits == t.deposits[d := t.deposits[d].(state := Credited)]
    ensures forall x :: Eligible(Effect(t, Credit(d, now)), x) <==> Eligible(t, x) && x != d
  {
  }

  // ---- how many polls crediting takes ----

  lemma {:induction false} CreditsDo(t: Tables, ids: seq<DepositId>, now: Time)
    requires AllSucceed(t, Credits(ids, now))
    ensures forall i :: 0 <= i < |ids| ==> ids[i] < |t.deposits|
    ensures Run(t, Credits(ids, now)).deposits == CreditedAll(t.deposits, ids)
    ensures forall d :: Eligible(Run(t, Credits(ids, now)), d) <==> Eligible(t, d) && d !in ids
  {
    hide Check, Effect, Eligible;
    if ids == [] {
      assert Credits(ids, now) == [];
    } else {
      var init, d := ids[..|ids| - 1], ids[|ids| - 1];
      assert Credits(ids, now)[..|ids| - 1] == Credits(init, now) && Credits(ids, now)[|ids| - 1] == Credit(d, now);
      CreditsDo(t, init, now);
      assert ids == init + [d];
      CreditEligible(Run(t, Credits(init, now)), d, now);
      CreditedAllSnoc(t.deposits, init, d);
    }
  }

  /** Crediting the selected rows takes exactly them out of the selection. */
  lemma FewerEligible(t: Tables, t': Tables, chain: Chain, ids: seq<DepositId>)
    requires OldestFirst(EligibleAgesOf(t, chain), ids, MAX_CREDITS_PER_POLL)
    requires t'.deposits == CreditedAll(t.deposits, ids)
    requires forall d :: Eligible(t', d) <==> Eligible(t, d) && d !in ids
    ensures |EligibleAgesOf(t', chain)| == |EligibleAgesOf(t, chain)| - |ids|
  {
    var before, after := EligibleAgesOf(t, chain), EligibleAgesOf(t', chain);
    PickedCount(ids);
    assert forall d :: d in ids ==> d in before;
    RowsKeepTransfer(t, ids);
    hide Eligible, CreditedAll, OldestFirst;
    assert forall d :: d in after <==> d in before && d !in ids;
    hide EligibleAgesOf;
    KeysLess(before, after, ids);
  }

  lemma KeysLess(before: map<nat, nat>, after: map<nat, nat>, ids: seq<nat>)
    requires (forall d :: d in ids ==> d in before) && (forall d :: d in after <==> d in before && d !in ids)
    requires |set i | 0 <= i < |ids| :: ids[i]| == |ids|
    ensures |after| == |before| - |ids|
  {
    var picked := set i | 0 <= i < |ids| :: ids[i];
    assert after.Keys == before.Keys - picked && picked <= before.Keys;
    assert |after| == |after.Keys| && |before| == |before.Keys|;
  }

  lemma RowsKeepTransfer(t: Tables, ids: seq<DepositId>)
    ensures forall d :: 0 <= d < |t.deposits| ==> CreditedAll(t.deposits, ids)[d].transfer == t.deposits[d].transfer
  {
  }

  lemma PollParts(v: View, history: History, t: Tables, poll: Poll)
    requires ValidPoll(v, history, t, poll)
    ensures var t2 := Run(Run(t, ScanOps(v.chain, poll)), Promoting(v.chain, poll.tags));
            && OldestFirst(EligibleAgesOf(t2, v.chain), poll.ids, MAX_CREDITS_PER_POLL)
                && AllSucceed(t2, Credits(poll.ids, poll.now))
            && Run(t, PollOps(v.chain, poll)) == Run(t2, Credits(poll.ids, poll.now))
  {
    var opening := Opening(v.chain, poll.scanned, poll.tags);
    assert opening == ScanOps(v.chain, poll) + Promoting(v.chain, poll.tags);
    RunConcat(t, ScanOps(v.chain, poll), Promoting(v.chain, poll.tags));
    RunConcat(t, opening, Credits(poll.ids, poll.now));
    hide Run, OldestFirst, AllSucceed, Promoting, Credits;
  }

  function Backlog(t: Tables, chain: Chain): nat { |EligibleAgesOf(t, chain)| }

  /** A poll credits 500 of what is eligible after its promotions, or all of it. */
  lemma PollDrains(v: View, history: History, t: Tables, poll: Poll)
    requires ValidPoll(v, history, t, poll)
    ensures var n := Backlog(Run(t, Opening(v.chain, poll.scanned, poll.tags)), v.chain);
            Backlog(Run(t, PollOps(v.chain, poll)), v.chain)
              == if n < MAX_CREDITS_PER_POLL then 0 else n - MAX_CREDITS_PER_POLL
  {
    var s := Run(t, Opening(v.chain, poll.scanned, poll.tags));
    RunConcat(t, Opening(v.chain, poll.scanned, poll.tags), Credits(poll.ids, poll.now));
    assert OldestFirst(EligibleAgesOf(s, v.chain), poll.ids, MAX_CREDITS_PER_POLL)
        && AllSucceed(s, Credits(poll.ids, poll.now));
    hide Run, ValidPoll, Opening, AllSucceed, Credits, Eligible, EligibleAgesOf;
    CreditsDo(s, poll.ids, poll.now);
    FewerEligible(s, Run(s, Credits(poll.ids, poll.now)), v.chain, poll.ids);
  }

  /** Somebody else's transaction: not this chain's watcher, nor a customer given an address a deposit names. */
  predicate Bystander(t: Tables, chain: Chain, op: Op) {
    && !OfWatcher(t, chain, op)
    && (op.CreateCustomer? ==> forall d :: 0 <= d < |t.deposits| ==> t.deposits[d].transfer.address != op.address)
  }

  lemma BystanderRow(t: Tables, chain: Chain, op: Op, d: DepositId)
    requires Bystander(t, chain, op) && Check(t, op) == None
    ensures d < |t.deposits| ==>
            d < |Effect(t, op).deposits| && Effect(t, op).deposits[d].transfer == t.deposits[d].transfer
    ensures d < |t.deposits| && t.deposits[d].transfer.chain == chain ==> Effect(t, op).deposits[d] == t.deposits[d]
    ensures |t.deposits| <= d < |Effect(t, op).deposits| ==> Effect(t, op).deposits[d].state == Observed
  {
  }

  lemma BystanderJoins(t: Tables, chain: Chain, op: Op, d: DepositId)
    requires Bystander(t, chain, op) && Check(t, op) == None && d < |t.deposits| && d < |Effect(t, op).deposits|
    requires Effect(t, op).deposits[d].transfer == t.deposits[d].transfer
    ensures Joined(Effect(t, op), d) <==> Joined(t, d)
  {
    if op.CreateCustomer? {
      var x := t.deposits[d].transfer;
      NewCustomerOnly(t, op);
      hide CustomerKeys, CheckCustomer;
      assert FloatOf(x.chain, x.asset) !in op.ids;
    }
  }

  lemma NewCustomerOnly(t: Tables, op: Op)
    requires op.CreateCustomer? && Check(t, op) == None
    ensures forall k :: k in op.ids ==> k.owner == Some(op.customer)
    ensures op.customer !in t.addresses.Values && op.address !in t.addresses
  {
    assert op.ids.Keys == CustomerKeys(op.customer);
  }

  lemma BystanderStep(t: Tables, chain: Chain, op: Op)
    requires Bystander(t, chain, op)
    ensures EligibleAgesOf(Apply(t, op), chain) == EligibleAgesOf(t, chain)
    ensures FinalizedOf(Apply(t, op), chain) == FinalizedOf(t, chain)
  {
    if Check(t, op) == None {
      hide Effect, Check, Bystander, Joined;
      forall d: DepositId ensures SameRow(t, Effect(t, op), chain, d) {
        BystanderRow(t, chain, op, d);
        if d < |t.deposits| { BystanderJoins(t, chain, op, d); }
      }
      SameRowsSameSets(t, Effect(t, op), chain);
    }
    hide EligibleAgesOf, FinalizedOf, SameRow;
  }

  /** As far as crediting the chain goes, row d is what it was, or is nothing yet. */
  predicate SameRow(t: Tables, t': Tables, chain: Chain, d: DepositId) {
    if d < |t.deposits| then
      && d < |t'.deposits| && t'.deposits[d].transfer == t.deposits[d].transfer && (Joined(t', d) <==> Joined(t, d))
      && (t.deposits[d].transfer.chain == chain ==>
          (t'.deposits[d].state == Finalized <==> t.deposits[d].state == Finalized))
    else
      d < |t'.deposits| && t'.deposits[d].transfer.chain == chain ==> t'.deposits[d].state != Finalized
  }

  lemma SameRowsSameSets(t: Tables, t': Tables, chain: Chain)
    requires forall d: DepositId :: SameRow(t, t', chain, d)
    ensures EligibleAgesOf(t', chain) == EligibleAgesOf(t, chain) && FinalizedOf(t', chain) == FinalizedOf(t, chain)
  {
    hide Joined;
    forall d: DepositId
      ensures d in EligibleAgesOf(t', chain) <==> d in EligibleAgesOf(t, chain)
      ensures d in FinalizedOf(t', chain) <==> d in FinalizedOf(t, chain)
    {
      assert SameRow(t, t', chain, d);
    }
    forall d: DepositId | d in EligibleAgesOf(t, chain)
      ensures EligibleAgesOf(t', chain)[d] == EligibleAgesOf(t, chain)[d]
    {
      assert SameRow(t, t', chain, d);
    }
  }

  /** The finalized rows of the chain that are not credited yet, creditable or not. */
  function FinalizedOf(t: Tables, chain: Chain): set<DepositId> {
    set d: DepositId | 0 <= d < |t.deposits| && t.deposits[d].transfer.chain == chain
        && t.deposits[d].state == Finalized
  }

  ghost predicate AllBystanders(t: Tables, chain: Chain, ops: seq<Op>) {
    ops != [] ==>
        AllBystanders(t, chain, ops[..|ops| - 1]) && Bystander(Run(t, ops[..|ops| - 1]), chain, ops[|ops| - 1])
  }

  lemma {:induction false} BystandersKeep(t: Tables, chain: Chain, ops: seq<Op>)
    requires AllBystanders(t, chain, ops)
    ensures EligibleAgesOf(Run(t, ops), chain) == EligibleAgesOf(t, chain)
    ensures FinalizedOf(Run(t, ops), chain) == FinalizedOf(t, chain)
  {
    hide EligibleAgesOf, FinalizedOf, Bystander, Apply;
    if ops != [] {
      BystandersKeep(t, chain, ops[..|ops| - 1]);
      BystanderStep(Run(t, ops[..|ops| - 1]), chain, ops[|ops| - 1]);
    }
  }

  /** The poll promotes no deposit to finalized: its count of promotions to finalized is zero. */
  predicate PromotesNone(t: Tables, chain: Chain, poll: Poll) {
    FinalizedOf(Run(t, Opening(chain, poll.scanned, poll.tags)), chain) == FinalizedOf(t, chain)
  }

  /** A turn in which nothing becomes eligible: bystanders, then a poll that promotes nothing to finalized. */
  ghost predicate Quiet(t: Tables, chain: Chain, turn: Turn) {
    AllBystanders(t, chain, turn.others) && PromotesNone(BeforePoll(t, turn), chain, turn.poll)
  }

  ghost predicate QuietTurns(t: Tables, chain: Chain, turns: seq<Turn>) {
    turns != [] ==>
        QuietTurns(t, chain, turns[..|turns| - 1])
        && Quiet(AfterTurns(t, chain, turns[..|turns| - 1]), chain, turns[|turns| - 1])
  }

  lemma NonePromotedNoneRipe(t: Tables, chain: Chain, poll: Poll)
    requires PromotesNone(t, chain, poll)
    ensures EligibleAgesOf(Run(t, Opening(chain, poll.scanned, poll.tags)), chain) == EligibleAgesOf(t, chain)
  {
    var s := Run(t, Opening(chain, poll.scanned, poll.tags));
    forall d: DepositId
      ensures d in EligibleAgesOf(s, chain) <==> d in EligibleAgesOf(t, chain)
      ensures d in EligibleAgesOf(t, chain) ==> d < |s.deposits| && s.deposits[d].transfer == t.deposits[d].transfer
    {
      assert d in FinalizedOf(s, chain) <==> d in FinalizedOf(t, chain);
      if d < |t.deposits| { OpeningRow(t, chain, poll, d); }
      hide Run, Opening;
    }
    hide Run, Opening, Eligible, FinalizedOf;
  }

  lemma OpeningRow(t: Tables, chain: Chain, poll: Poll, d: DepositId)
    requires d < |t.deposits|
    ensures var s := Run(t, Opening(chain, poll.scanned, poll.tags));
            && d < |s.deposits| && s.deposits[d] == AfterTags(t.deposits[d], chain, poll.tags)
                && (Joined(s, d) <==> Joined(t, d))
  {
    OpeningSplits(t, chain, poll);
    var t1 := Run(t, ScanOps(chain, poll));
    ScanOnly(chain, poll);
    ScanGrows(t, ScanOps(chain, poll));
    assert t1.deposits[d] == t1.deposits[..|t.deposits|][d];
    PromotedRows(t1, chain, poll.tags);
    hide Run, Opening, Promoting, ScanOps;
  }

  lemma OpeningSplits(t: Tables, chain: Chain, poll: Poll)
    ensures Run(t, Opening(chain, poll.scanned, poll.tags))
            == Run(Run(t, ScanOps(chain, poll)), Promoting(chain, poll.tags))
  {
    assert Opening(chain, poll.scanned, poll.tags) == ScanOps(chain, poll) + Promoting(chain, poll.tags);
    RunConcat(t, ScanOps(chain, poll), Promoting(chain, poll.tags));
  }

  /**
    n eligible deposits are all credited after exactly the ceiling of n over 500 successful polls,
    whatever bystanders commit in between, as long as no poll promotes anything new to finalized.
   */
  lemma {:induction false} CreditsDrain(v: View, history: History, t: Tables, turns: seq<Turn>)
    requires ValidTurns(v, history, t, turns) && QuietTurns(t, v.chain, turns)
    ensures var n, left := Backlog(t, v.chain), Backlog(AfterTurns(t, v.chain, turns), v.chain);
            && left == (if n < MAX_CREDITS_PER_POLL * |turns| then 0 else n - MAX_CREDITS_PER_POLL * |turns|)
            && (left == 0 <==> |turns| >= CeilDiv(n, MAX_CREDITS_PER_POLL))
  {
    hide ValidTurn, Quiet, Backlog, AfterTurn;
    if turns != [] {
      var init, last := turns[..|turns| - 1], turns[|turns| - 1];
      CreditsDrain(v, history, t, init);
      QuietTurnDrains(v, history, AfterTurns(t, v.chain, init), last);
    }
  }

  lemma QuietTurnDrains(v: View, history: History, t: Tables, turn: Turn)
    requires ValidTurn(v, history, t, turn) && Quiet(t, v.chain, turn)
    ensures var n := Backlog(t, v.chain);
            Backlog(AfterTurn(t, v.chain, turn), v.chain)
              == if n < MAX_CREDITS_PER_POLL then 0 else n - MAX_CREDITS_PER_POLL
  {
    hide ValidPoll, AllBystanders, PromotesNone, Run, Opening, PollOps, EligibleAgesOf, FinalizedOf;
    BystandersKeep(t, v.chain, turn.others);
    NonePromotedNoneRipe(BeforePoll(t, turn), v.chain, turn.poll);
    PollDrains(v, history, BeforePoll(t, turn), turn.poll);
  }

  // ---- the reorg check and the shipped poll ----

  /** Orphaning distinct pending deposits orphans them and no other. */
  lemma {:induction false} OrphansDo(t: Tables, ids: seq<DepositId>)
    requires forall i :: 0 <= i < |ids| ==> ids[i] < |t.deposits| && t.deposits[ids[i]].Pending()
    requires forall i, j :: 0 <= i < j < |ids| ==> ids[i] != ids[j]
    ensures |Run(t, Orphans(ids)).deposits| == |t.deposits|
    ensures forall d :: 0 <= d < |t.deposits| ==>
              Run(t, Orphans(ids)).deposits[d] == if d in ids then t.deposits[d].(state := Orphaned) else t.deposits[d]
  {
    if ids != [] {
      var init, last := ids[..|ids| - 1], ids[|ids| - 1];
      assert ids == init + [last];
      OrphansDo(t, init);
      OrphansSnoc(t, init, last);
      assert last !in init;
      OrphanRow(Run(t, Orphans(init)), last);
      hide Apply;
    }
  }

  lemma OrphanRow(t: Tables, d: DepositId)
    requires d < |t.deposits| && t.deposits[d].Pending()
    ensures Apply(t, Orphan(d)).deposits == t.deposits[d := t.deposits[d].(state := Orphaned)]
  {
  }

  /** The check's outcome on a listing: exactly the listed stale deposits are orphaned, the rest untouched. */
  lemma CheckOrphansStale(t: Tables, chain: Chain, heads: Heads, listed: seq<DepositId>)
    requires OldestFirst(PendingAgesOf(t, chain), listed, MAX_PENDING_PER_REORG_CHECK)
    ensures forall i :: 0 <= i < |listed| ==> listed[i] < |t.deposits| && t.deposits[listed[i]].Pending()
    ensures var s := Run(t, Orphans(StaleOf(t, heads, listed)));
            && |s.deposits| == |t.deposits|
            && forall d :: 0 <= d < |t.deposits| ==>
                 s.deposits[d] ==
                   if d in listed && Stale(t, heads, d) then t.deposits[d].(state := Orphaned)
                   else t.deposits[d]
  {
    var stale := StaleOf(t, heads, listed);
    forall d ensures d in stale <==> d in listed && Stale(t, heads, d) { StaleExact(t, heads, listed, d); }
    StaleDistinct(t, heads, listed);
    forall i | 0 <= i < |stale| ensures stale[i] in listed { assert stale[i] in stale; }
    OrphansDo(t, stale);
  }

  lemma {:induction false} StaleDistinct(t: Tables, heads: Heads, listed: seq<DepositId>)
    requires forall i :: 0 <= i < |listed| ==> listed[i] < |t.deposits|
    requires forall i, j :: 0 <= i < j < |listed| ==> listed[i] != listed[j]
    ensures forall i, j :: 0 <= i < j < |StaleOf(t, heads, listed)| ==>
            StaleOf(t, heads, listed)[i] != StaleOf(t, heads, listed)[j]
  {
    if listed != [] {
      var init, last := listed[..|listed| - 1], listed[|listed| - 1];
      StaleDistinct(t, heads, init);
      StaleExact(t, heads, init, last);
      assert last !in init;
    }
  }

  /** In the poll that opens with the check, a deposit orphaned by it is neither promoted nor credited. */
  lemma OrphanedNeverCredited(t: Tables, chain: Chain, heads: Heads, listed: seq<DepositId>, poll: Poll, d: DepositId)
    requires OldestFirst(PendingAgesOf(t, chain), listed, MAX_PENDING_PER_REORG_CHECK) && d in listed
    requires d < |t.deposits| && Stale(t, heads, d)
    ensures forall i :: 0 <= i < |listed| ==> listed[i] < |t.deposits|
    ensures var s := Run(Run(t, Orphans(StaleOf(t, heads, listed))), PollOps(chain, poll));
            d < |s.deposits| && s.deposits[d] == t.deposits[d].(state := Orphaned)
  {
    CheckOrphansStale(t, chain, heads, listed);
    Records.TerminalStates(Run(t, Orphans(StaleOf(t, heads, listed))), PollOps(chain, poll), d);
  }

  /** Without an orphan transaction no row becomes orphaned. */
  lemma {:induction false} OnlyOrphanOrphans(t: Tables, ops: seq<Op>, d: DepositId)
    requires d < |t.deposits| && t.deposits[d].state != Orphaned && forall i :: 0 <= i < |ops| ==> !ops[i].Orphan?
    ensures d < |Run(t, ops).deposits| && Run(t, ops).deposits[d].state != Orphaned
  {
    if ops != [] {
      var init, op := ops[..|ops| - 1], ops[|ops| - 1];
      OnlyOrphanOrphans(t, init, d);
      NotOrphaned(Run(t, init), op, d);
    }
  }

  lemma NotOrphaned(t: Tables, op: Op, d: DepositId)
    requires d < |t.deposits| && t.deposits[d].state != Orphaned && !op.Orphan?
    ensures d < |Apply(t, op).deposits| && Apply(t, op).deposits[d].state != Orphaned
  {
  }

  lemma PollHasNoOrphan(chain: Chain, poll: Poll)
    ensures forall i :: 0 <= i < |PollOps(chain, poll)| ==> !PollOps(chain, poll)[i].Orphan?
  {
  }

  /**
    The shipped poll skips the check. When no listed deposit is stale both polls start from the
    same tables; otherwise no outcome of one is an outcome of the other, because the stale deposit
    ends orphaned in one and not in the other.
   */
  lemma ShippedAgreesIffNothingStale(v: View, history: History, t: Tables, heads: Heads, listed: seq<DepositId>,
          shipped: Poll, intended: Poll)
    requires OldestFirst(PendingAgesOf(t, v.chain), listed, MAX_PENDING_PER_REORG_CHECK)
    ensures forall i :: 0 <= i < |listed| ==> listed[i] < |t.deposits|
    ensures var checked := Run(t, Orphans(StaleOf(t, heads, listed)));
            if StaleOf(t, heads, listed) == [] then
              ValidPoll(v, history, checked, shipped) == ValidPoll(v, history, t, shipped)
                  && Run(checked, PollOps(v.chain, shipped)) == Run(t, PollOps(v.chain, shipped))
            else
              Run(checked, PollOps(v.chain, intended)) != Run(t, PollOps(v.chain, shipped))
  {
    CheckOrphansStale(t, v.chain, heads, listed);
    var stale := StaleOf(t, heads, listed);
    hide ValidPoll, PollOps;
    if stale == [] {
      assert Orphans(stale) == [];
      RunEmpty(t);
    } else {
      var d := stale[0];
      StaleExact(t, heads, listed, d);
      OrphanedNeverCredited(t, v.chain, heads, listed, intended, d);
      PollHasNoOrphan(v.chain, shipped);
      OnlyOrphanOrphans(t, PollOps(v.chain, shipped), d);
    }
  }

  // ---- exactly what the shipped poll does with a deposit ----

  /** Scanning appends rows; it changes none, nor anything a deposit is joined with. */
  predicate Grown(t: Tables, t': Tables) {
    && t'.accounts == t.accounts && t'.addresses == t.addresses && t'.policy == t.policy && t'.postings == t.postings
    && |t.deposits| <= |t'.deposits| && t'.deposits[..|t.deposits|] == t.deposits
  }

  lemma {:induction false} ScanGrows(t: Tables, ops: seq<Op>)
    requires forall i :: 0 <= i < |ops| ==> ops[i].Observe? || ops[i].SetCursor?
    ensures Grown(t, Run(t, ops))
  {
    if ops != [] {
      var init, op := ops[..|ops| - 1], ops[|ops| - 1];
      ScanGrows(t, init);
      var s := Run(t, init);
      assert Grown(s, Apply(s, op));
      hide Apply;
      assert Run(t, ops).deposits[..|t.deposits|] == Run(t, ops).deposits[..|s.deposits|][..|t.deposits|];
    }
  }

  /** What a poll leaves of a row: both promotions, then credited if selected. */
  lemma PollRow(v: View, history: History, t: Tables, poll: Poll, d: DepositId)
    requires ValidPoll(v, history, t, poll) && d < |t.deposits| && t.deposits[d].transfer.chain == v.chain
    ensures var s := Run(t, PollOps(v.chain, poll));
            && d < |s.deposits|
            && var row := AfterTags(t.deposits[d], v.chain, poll.tags);
            && s.deposits[d] == (if d in poll.ids then row.(state := Credited) else row)
    ensures d in poll.ids ==> Joined(t, d) && AfterTags(t.deposits[d], v.chain, poll.tags).state == Finalized
    ensures Joined(t, d) && AfterTags(t.deposits[d], v.chain, poll.tags).state == Finalized && d !in poll.ids ==>
              && |poll.ids| == MAX_CREDITS_PER_POLL
              && var s := Run(t, PollOps(v.chain, poll));
                 forall x :: x in poll.ids ==>
                         x < |s.deposits| && s.deposits[x].transfer.block <= t.deposits[d].transfer.block
  {
    hide ValidPoll, Run, Promoting, Credits, PollOps, AllSucceed, ScanOps, Joined, AfterTags, Eligible, EligibleAgesOf,
        OldestFirst;
    var t2 := Run(Run(t, ScanOps(v.chain, poll)), Promoting(v.chain, poll.tags));
    PollParts(v, history, t, poll);
    BeforeCrediting(t, v.chain, poll, d);
    CreditsDo(t2, poll.ids, poll.now);
    if Eligible(t2, d) && d !in poll.ids { LeftOut(t2, v.chain, poll.ids, d); }
    if d in poll.ids { SelectedEligible(t2, v.chain, poll.ids, d); }
  }

  lemma SelectedEligible(t: Tables, chain: Chain, ids: seq<DepositId>, d: DepositId)
    requires OldestFirst(EligibleAgesOf(t, chain), ids, MAX_CREDITS_PER_POLL) && d in ids
    ensures Eligible(t, d)
  {
    assert d in EligibleAgesOf(t, chain);
  }

  lemma BeforeCrediting(t: Tables, chain: Chain, poll: Poll, d: DepositId)
    requires d < |t.deposits|
    ensures var t2 := Run(Run(t, ScanOps(chain, poll)), Promoting(chain, poll.tags));
            && d < |t2.deposits| && t2.deposits[d] == AfterTags(t.deposits[d], chain, poll.tags)
                && t2.deposits[d].transfer == t.deposits[d].transfer
            && (Eligible(t2, d) <==> Joined(t, d) && AfterTags(t.deposits[d], chain, poll.tags).state == Finalized)
  {
    OpeningSplits(t, chain, poll);
    hide Run, Promoting, ScanOps, Joined;
    OpeningRow(t, chain, poll, d);
  }

  lemma LeftOut(t: Tables, chain: Chain, ids: seq<DepositId>, d: DepositId)
    requires OldestFirst(EligibleAgesOf(t, chain), ids, MAX_CREDITS_PER_POLL)
    requires Eligible(t, d) && t.deposits[d].transfer.chain == chain && d !in ids
    ensures |ids| == MAX_CREDITS_PER_POLL
    ensures forall x :: x in ids ==> x < |t.deposits| && t.deposits[x].transfer.block <= t.deposits[d].transfer.block
  {
    var ages := EligibleAgesOf(t, chain);
    assert d in ages;
    SelectionFull(ages, ids, d);
    forall x | x in ids ensures x < |t.deposits| && t.deposits[x].transfer.block <= t.deposits[d].transfer.block {
      assert x in ages && ages[x] <= ages[d];
    }
  }

  /** A row left out means the selection is full. */
  lemma SelectionFull(ages: map<nat, nat>, ids: seq<nat>, d: nat)
    requires OldestFirst(ages, ids, MAX_CREDITS_PER_POLL) && d in ages && d !in ids
    ensures |ids| == MAX_CREDITS_PER_POLL
  {
    if |ages| <= MAX_CREDITS_PER_POLL { NothingLeftOut(ages, ids, MAX_CREDITS_PER_POLL); }
  }

  lemma ScanOnly(chain: Chain, poll: Poll)
    ensures forall i :: 0 <= i < |ScanOps(chain, poll)| ==>
            ScanOps(chain, poll)[i].Observe? || ScanOps(chain, poll)[i].SetCursor?
  {
  }

  /**
    What a shipped poll does with a pending deposit is decided by its block and the polled tags
    alone, whether or not the chain still has that block: it stays observed above the safe tag, is
    safe between the tags, is finalized at or below the finalized tag, and is then credited if its
    policy, address and accounts exist, unless 500 others at or below its block go first.
   */
  lemma ShippedPollExact(v: View, history: History, t: Tables, poll: Poll, d: DepositId)
    requires ValidPoll(v, history, t, poll) && d < |t.deposits| && t.deposits[d].transfer.chain == v.chain
    requires t.deposits[d].Pending()
    ensures d < |Run(t, PollOps(v.chain, poll)).deposits|
    ensures var s := Run(t, PollOps(v.chain, poll));
            var x, was, now, tags := t.deposits[d].transfer, t.deposits[d].state, s.deposits[d].state, poll.tags;
            && s.deposits[d].transfer == x
            && (now == Observed <==> was == Observed && tags.safe < x.block)
            && (now == Safe <==> tags.finalized < x.block && (was == Safe || x.block <= tags.safe))
            && (now == Finalized || now == Credited <==> x.block <= tags.finalized)
            && (now == Credited <==> x.block <= tags.finalized && Joined(t, d) && d in poll.ids)
            && (x.block <= tags.finalized && Joined(t, d) && d !in poll.ids ==>
                  |poll.ids| == MAX_CREDITS_PER_POLL
                  && forall other :: other in poll.ids ==>
                      other < |s.deposits| && s.deposits[other].transfer.block <= x.block)
  {
    PollRow(v, history, t, poll, d);
    assert poll.tags.Consistent();
    hide Run, ValidPoll, PollOps, Joined;
  }

  /**
    The listed stale deposits are where the shipped poll and the intended one part: the intended
    poll leaves d orphaned, the shipped one credits it exactly when it would credit any deposit of
    its block, and otherwise leaves it waiting.
   */
  lemma ShippedOnStale(v: View, history: History, t: Tables, heads: Heads, listed: seq<DepositId>, shipped: Poll,
          intended: Poll, d: DepositId)
    requires OldestFirst(PendingAgesOf(t, v.chain), listed, MAX_PENDING_PER_REORG_CHECK) && d in listed
    requires d < |t.deposits| && Stale(t, heads, d) && ValidPoll(v, history, t, shipped)
    ensures forall i :: 0 <= i < |listed| ==> listed[i] < |t.deposits|
    ensures var checked := Run(Run(t, Orphans(StaleOf(t, heads, listed))), PollOps(v.chain, intended));
            d < |checked.deposits| && checked.deposits[d].state == Orphaned
    ensures var s := Run(t, PollOps(v.chain, shipped));
            && d < |s.deposits| && s.deposits[d].state != Orphaned
            && (s.deposits[d].state == Credited <==>
                t.deposits[d].transfer.block <= shipped.tags.finalized && Joined(t, d) && d in shipped.ids)
            && (s.deposits[d].state == t.deposits[d].state <==>
                  if t.deposits[d].state == Observed then shipped.tags.safe < t.deposits[d].transfer.block
                  else shipped.tags.finalized < t.deposits[d].transfer.block)
  {
    assert d in PendingAgesOf(t, v.chain);
    hide Run, ValidPoll, PollOps;
    OrphanedNeverCredited(t, v.chain, heads, listed, intended, d);
    ShippedPollExact(v, history, t, shipped, d);
  }

  // ---- a witness ----

  /** The first customer's deposit, observed at block 5 and scanned past. */
  function FirstDeposit(chain: Chain, start: nat, amount: nat, state: DepositState, safe: Option<nat>,
          finalized: Option<nat>): Tables {
    var observed := map[(chain, ObservedTier) := 10];
    var promoted := if safe.Some? then observed[(chain, SafeTier) := safe.value] else observed;
    FirstCustomer.Deposited(chain, start, amount, state)
      .(cursors := if finalized.Some? then promoted[(chain, FinalizedTier) := finalized.value] else promoted)
  }

  /** Block 5 has been replaced. */
  const REPLACED: Heads := h => Some("0xnew")

  const ONE_POLL := Poll(Tags(10, 10, 10), None, [0], 0)

  /** On a database one customer's history leads to, the shipped poll credits a deposit of a replaced block. */
  lemma ShippedCreditsReplacedBlock(v: View, history: History, start: nat, amount: int)
          returns (t: Tables, account: AccountId)
    requires amount > 0
    ensures Reachable(t) && |t.deposits| == 1 && Stale(t, REPLACED, 0) && ValidPoll(v, history, t, ONE_POLL)
    ensures OldestFirst(PendingAgesOf(t, v.chain), [0], MAX_PENDING_PER_REORG_CHECK)
    ensures var s := Run(t, PollOps(v.chain, ONE_POLL));
            && |s.deposits| == 1 && s.deposits[0].state == Credited && Joined(t, 0)
            && account == CreditedTo(t, 0) && Balance(t, account) == 0 && Balance(s, account) == amount
  {
    t := FirstDeposit(v.chain, start, amount, Observed, None, None);
    account := FirstCustomer.Available0(v.chain);
    FirstDepositReached(v.chain, start, amount);
    FirstDepositFacts(v.chain, start, amount);
    PromotesFirstDeposit(v.chain, start, amount);
    CreditsFirstDeposit(v.chain, start, amount);
    hide FirstDeposit, Run, Promoting, Credits, AllSucceed, EligibleAgesOf, PendingAgesOf, Reachable, OldestFirst,
        Joined, CreditedTo, Balance, Stale;
    var opening := Opening(v.chain, None, ONE_POLL.tags);
    assert opening == Promoting(v.chain, ONE_POLL.tags);
    RunConcat(t, opening, Credits([0], 0));
  }

  lemma FirstDepositFacts(chain: Chain, start: nat, amount: int)
    requires amount > 0
    ensures var t := FirstDeposit(chain, start, amount, Observed, None, None);
            && |t.deposits| == 1 && Stale(t, REPLACED, 0) && CursorOf(t, chain) == 10
            && OldestFirst(PendingAgesOf(t, chain), [0], MAX_PENDING_PER_REORG_CHECK)
            && Joined(t, 0) && CreditedTo(t, 0) == FirstCustomer.Available0(chain)
                && Balance(t, FirstCustomer.Available0(chain)) == 0
  {
    var t := FirstDeposit(chain, start, amount, Observed, None, None);
    FirstCustomer.HasAccounts(chain);
    assert t.deposits == [Deposit(FirstCustomer.Arrival(chain, amount), Observed)];
    hide OldestFirst, PendingAgesOf;
    OneAge(t, chain);
  }

  lemma OneAge(t: Tables, chain: Chain)
    requires |t.deposits| == 1 && t.deposits[0].transfer.chain == chain && t.deposits[0].transfer.block == 5
    ensures t.deposits[0].state == Observed ==> OldestFirst(PendingAgesOf(t, chain), [0], MAX_PENDING_PER_REORG_CHECK)
    ensures Eligible(t, 0) ==> OldestFirst(EligibleAgesOf(t, chain), [0], MAX_CREDITS_PER_POLL)
  {
    if t.deposits[0].state == Observed { assert PendingAgesOf(t, chain) == map[0 := 5]; }
    if Eligible(t, 0) { assert EligibleAgesOf(t, chain) == map[0 := 5]; }
    hide Eligible;
  }

  function CreditedTo(t: Tables, d: DepositId): AccountId
    requires Joined(t, d)
  {
    var x := t.deposits[d].transfer;
    t.accounts[AvailableOf(t.addresses[x.address], x.chain, x.asset)]
  }

  lemma FirstDepositReached(chain: Chain, start: nat, amount: int)
    requires amount > 0
    ensures Reachable(FirstDeposit(chain, start, amount, Observed, None, None))
  {
    var s := FirstCustomer.Deposited(chain, start, amount, Observed);
    FirstCustomer.DepositReached(chain, start, amount);
    assert Apply(s, Op.SetCursor(chain, ObservedTier, 10)) == FirstDeposit(chain, start, amount, Observed, None, None);
    hide Reachable, Apply;
    ReachedNext(s, Op.SetCursor(chain, ObservedTier, 10));
  }

  lemma PromotesFirstDeposit(chain: Chain, start: nat, amount: nat)
    ensures Run(FirstDeposit(chain, start, amount, Observed, None, None), Promoting(chain, ONE_POLL.tags))
         == FirstDeposit(chain, start, amount, Finalized, Some(10), Some(10))
  {
    PromotingRun(FirstDeposit(chain, start, amount, Observed, None, None), chain, ONE_POLL.tags);
    var none: Option<nat> := None;
    assert Apply(FirstDeposit(chain, start, amount, Observed, none, none), PromoteSafe(chain, 10))
        == FirstDeposit(chain, start, amount, Safe, none, none);
    assert Apply(FirstDeposit(chain, start, amount, Safe, none, none), Op.SetCursor(chain, SafeTier, 10))
        == FirstDeposit(chain, start, amount, Safe, Some(10), none);
    assert Apply(FirstDeposit(chain, start, amount, Safe, Some(10), none), PromoteFinalized(chain, 10))
        == FirstDeposit(chain, start, amount, Finalized, Some(10), none);
    assert Apply(FirstDeposit(chain, start, amount, Finalized, Some(10), none), Op.SetCursor(chain, FinalizedTier, 10))
        == FirstDeposit(chain, start, amount, Finalized, Some(10), Some(10));
  }

  lemma CreditsFirstDeposit(chain: Chain, start: nat, amount: int)
    requires amount > 0
    ensures var t := FirstDeposit(chain, start, amount, Finalized, Some(10), Some(10));
            && OldestFirst(EligibleAgesOf(t, chain), [0], MAX_CREDITS_PER_POLL) && AllSucceed(t, Credits([0], 0))
            && var s := Run(t, Credits([0], 0));
            && |s.deposits| == 1 && s.deposits[0].state == Credited
                && Balance(s, FirstCustomer.Available0(chain)) == amount
  {
    var t := FirstDeposit(chain, start, amount, Finalized, Some(10), Some(10));
    var none: seq<DepositId> := [];
    FirstDepositCredited(chain, start, amount);
    hide FirstDeposit, Check, Effect, Eligible, OldestFirst, EligibleAgesOf, Balance;
    OneAge(t, chain);
    assert Credits(none, 0) == [] && none + [0] == [0];
    RunEmpty(t);
    CreditsAppend(t, none, 0, 0);
  }

  lemma FirstDepositCredited(chain: Chain, start: nat, amount: int)
    requires amount > 0
    ensures var t := FirstDeposit(chain, start, amount, Finalized, Some(10), Some(10));
            && |t.deposits| == 1 && t.deposits[0].transfer.chain == chain && t.deposits[0].transfer.block == 5
            && Eligible(t, 0) && Check(t, Credit(0, 0)) == None
            && var s := Effect(t, Credit(0, 0));
            && |s.deposits| == 1 && s.deposits[0].state == Credited
                && Balance(s, FirstCustomer.Available0(chain)) == amount
  {
    var t := FirstDeposit(chain, start, amount, Finalized, Some(10), Some(10));
    FirstDepositEligible(chain, start, amount);
    var s := Effect(t, Credit(0, 0));
    var a := FirstCustomer.Available0(chain);
    hide FirstDeposit, Eligible;
    assert s.postings == [] + [Posting(0, 1, -amount), Posting(0, a, amount)];
    TotalAppend2([], Posting(0, 1, -amount), Posting(0, a, amount), On(a));
  }

  lemma FirstDepositEligible(chain: Chain, start: nat, amount: int)
    requires amount > 0
    ensures var t := FirstDeposit(chain, start, amount, Finalized, Some(10), Some(10));
            && t.deposits == [Deposit(FirstCustomer.Arrival(chain, amount), Finalized)] && t.postings == []
                && t.journal == []
            && Eligible(t, 0) && CreditedTo(t, 0) == FirstCustomer.Available0(chain)
                && t.accounts[FloatOf(chain, Eth)] == 1
  {
    FirstCustomer.HasAccounts(chain);
    assert FloatOf(chain, Eth) !in FirstCustomer.Numbers();
  }
}
