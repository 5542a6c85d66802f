/** The deposit watcher of one chain: its poll, the reorg check it is meant to start with, and its poll loop. */
module Watcher {
  import opened Domain
  import opened Ledger
  import opened Query
  import opened Repositories
  import opened CallTree
  import opened Scan
  import opened Polls

  datatype Report = Report(scannedFrom: nat, scannedTo: nat, observed: nat, promotedToSafe: nat,
      promotedToFinalized: nat, credited: nat)

  class TrackDeposits {
    const chain: Chain
    const db: Database
    const scanner: Scanner
    /** The heights asked about by the last reorg check, in order. */
    ghost var queried: seq<nat>

    ghost predicate Valid()
      reads this, scanner
    {
      scanner.Valid() && scanner.chain == chain
    }

    constructor (chain: Chain, db: Database, scanner: Scanner)
      requires scanner.Valid() && scanner.chain == chain
      ensures Valid() && this.chain == chain && this.db == db && this.scanner == scanner
    {
      this.chain, this.db, this.scanner, queried := chain, db, scanner, [];
    }

    /** Records every transfer of the scan; returns how many rows are new. */
    method RecordAll(transfers: seq<Transfer>) returns (observed: nat)
      requires forall x :: x in transfers ==> x.amount > 0
      modifies db
      ensures db.Rows() == Run(old(db.Rows()), Observes(transfers))
      ensures |db.deposits| == |old(db.deposits)| + observed
    {
      observed := 0;
      ghost var t := db.Rows();
      assert Observes(transfers[..0]) == [];
      for i := 0 to |transfers|
        invariant db.Rows() == Run(t, Observes(transfers[..i])) && |db.deposits| == |t.deposits| + observed
      {
        assert transfers[..i + 1] == transfers[..i] + [transfers[i]];
        ObservesSnoc(t, transfers[..i], transfers[i]);
        ghost var before := db.Rows();
        if Check(before, Observe(transfers[i])) == None { TransfersStep(before, Observe(transfers[i])); }
        var inserted := db.RecordObserved(transfers[i]);
        if inserted { observed := observed + 1; }
      }
      assert transfers[..|transfers|] == transfers;
    }

    /** The scanning phase: the next capped range, recorded, and the observed cursor moved to its end. */
    method ScanPhase(known: Known, registry: map<string, Asset>, tags: Tags) returns (failed: bool, report: Report,
        ghost scanned: Option<(seq<Transfer>, nat)>)
      requires Valid() && CursorOf(db.Rows(), chain) <= tags.latest
      modifies db, scanner
      ensures Valid()
      ensures !failed ==>
              ScanOk(scanner.ViewOf(known, registry), scanner.history, old(db.Rows()), Poll(tags, scanned, [], 0))
      ensures !failed && scanned.None? ==> db.Rows() == old(db.Rows())
      ensures !failed && scanned.Some? ==>
              db.Rows() == Run(old(db.Rows()), Scanning(chain, scanned.value.0, scanned.value.1))
      ensures !failed && scanned.Some? ==>
              report.scannedFrom == CursorOf(old(db.Rows()), chain) + 1 && report.scannedTo == scanned.value.1
    {
      report, scanned := Report(0, 0, 0, 0, 0, 0), None;
      var cursor := db.Cursor(chain, ObservedTier);
      var from := cursor + 1;
      if from > tags.latest { return false, report, None; }
      var to := tags.latest;
      if tags.latest - from + 1 > MAX_BLOCKS_PER_SCAN { to := from + MAX_BLOCKS_PER_SCAN - 1; }
      var transfers: seq<Transfer>, unsupported: seq<Unsupported>;
      failed, transfers, unsupported := scanner.ScanDeposits(known, registry, from, to);
      if failed { return; }
      FoundPositive(scanner.ViewOf(known, registry), scanner.history, from, to, transfers);
      ghost var t := db.Rows();
      var observed := RecordAll(transfers);
      RunSnoc(t, Observes(transfers), Op.SetCursor(chain, ObservedTier, to));
      db.SetCursor(chain, ObservedTier, to);
      report := report.(scannedFrom := from, scannedTo := to, observed := observed);
      scanned := Some((transfers, to));
    }

    /** Promotion to safe, then to finalized, each moving its cursor to the tag it used. */
    method PromotePhase(tags: Tags, r: Report) returns (report: Report)
      modifies db
      ensures db.Rows() == Run(old(db.Rows()), Promoting(chain, tags))
      ensures report.scannedFrom == r.scannedFrom && report.scannedTo == r.scannedTo && report.observed == r.observed
    {
      ghost var t := db.Rows();
      var safe := db.PromoteToSafe(chain, tags.safe);
      db.SetCursor(chain, SafeTier, tags.safe);
      var finalized := db.PromoteToFinalized(chain, tags.finalized);
      db.SetCursor(chain, FinalizedTier, tags.finalized);
      PromotingRun(t, chain, tags);
      report := r.(promotedToSafe := safe, promotedToFinalized := finalized);
    }

    /** Every phase after the reorg check; on failure the tables are left to the caller to roll back. */
    method Phases(known: Known, registry: map<string, Asset>, tags: Tags, now: Time)
            returns (failed: bool, report: Report, ghost poll: Poll)
      requires Valid() && tags.Consistent()
      modifies db, scanner
      ensures Valid()
      ensures !failed ==>
              ValidPoll(scanner.ViewOf(known, registry), scanner.history, old(db.Rows()), poll) && poll.tags == tags
      ensures !failed ==> db.Rows() == Run(old(db.Rows()), PollOps(chain, poll))
      ensures !failed ==> report.credited == |poll.ids|
    {
      ghost var t := db.Rows();
      report := Report(0, 0, 0, 0, 0, 0);
      poll := Poll(tags, None, [], now);
      var cursor := db.Cursor(chain, ObservedTier);
      if cursor > tags.latest { return true, report, poll; }
      ghost var scanned: Option<(seq<Transfer>, nat)>;
      failed, report, scanned := ScanPhase(known, registry, tags);
      if failed { return; }
      ghost var middle := db.Rows();
      report := PromotePhase(tags, report);
      RunConcat(t, if scanned.Some? then Scanning(chain, scanned.value.0, scanned.value.1)
          else [], Promoting(chain, tags));
      ghost var s := db.Rows();
      var err, ids := db.CreditFinalizedDeposits(chain, now);
      if err.Some? { return true, report, poll; }
      poll := Poll(tags, scanned, ids, now);
      RunConcat(t, Opening(chain, scanned, tags), Credits(ids, now));
      report := report.(credited := |ids|);
      failed := false;
    }

    /**
      The poll as shipped: read the head, then one transaction for scanning, promotion and
      crediting. Anything that fails leaves every table as it was.
     */
    method Execute(known: Known, registry: map<string, Asset>, head: Option<Tags>, now: Time)
            returns (report: Option<Report>, ghost poll: Poll)
      requires Valid()
      modifies db, scanner
      ensures Valid()
      ensures report.None? ==> db.Rows() == old(db.Rows())
      ensures report.Some? ==>
              head == Some(poll.tags)
              && ValidPoll(scanner.ViewOf(known, registry), scanner.history, old(db.Rows()), poll)
      ensures report.Some? ==>
              db.Rows() == Run(old(db.Rows()), PollOps(chain, poll)) && report.value.credited == |poll.ids|
    {
      poll := Poll(Tags(0, 0, 0), None, [], now);
      if head == None || !head.value.Consistent() { return None, poll; }
      var begins, commits: bool := *, *;
      if !begins { return None, poll; }
      var saved := db.Rows();
      var failed: bool, done: Report;
      failed, done, poll := Phases(known, registry, head.value, now);
      if failed || !commits {
        db.Load(saved);
        return None, poll;
      }
      report := Some(done);
    }

    /** One listed deposit: its height's hash from the cache or the node, and the comparison. */
    method CheckOne(d: DepositId, heads: Heads, cache: map<nat, Option<string>>)
            returns (failed: bool, currentHash: map<nat, Option<string>>)
      requires d < |db.deposits| && db.deposits[d].Pending() && CacheOk(cache, heads, queried)
      modifies db, this`queried
      ensures CacheOk(currentHash, heads, queried)
      ensures !failed ==>
              db.Rows() == if Stale(old(db.Rows()), heads, d) then Apply(old(db.Rows()), Orphan(d)) else old(db.Rows())
      ensures !failed ==> forall h :: h in queried <==> h in old(queried) || AsksAbout(old(db.Rows()), d, h)
    {
      var x := db.deposits[d].transfer;
      currentHash := cache;
      if x.blockHash == "" { return false, currentHash; }
      if x.block !in currentHash {
        failed := *;
        if failed { return; }
        queried := queried + [x.block];
        currentHash := currentHash[x.block := heads(x.block)];
      }
      if currentHash[x.block] != Some(x.blockHash) {
        var err := db.OrphanDeposit(d);
        if err.Some? { return true, currentHash; }
      }
      failed := false;
    }

    /** The reorg check: each height asked about once, and exactly the stale ones of the listed deposits orphaned. */
    method CheckForReorgs(heads: Heads) returns (failed: bool, ghost listed: seq<DepositId>)
      modifies db, this`queried
      ensures OldestFirst(PendingAgesOf(old(db.Rows()), chain), listed, MAX_PENDING_PER_REORG_CHECK)
      ensures forall i :: 0 <= i < |listed| ==> listed[i] < |old(db.deposits)|
      ensures !failed ==> db.Rows() == Run(old(db.Rows()), Orphans(StaleOf(old(db.Rows()), heads, listed)))
      ensures forall i, j :: 0 <= i < j < |queried| ==> queried[i] != queried[j]
      ensures !failed ==> forall h :: h in queried <==> AnyAsksAbout(old(db.Rows()), listed, |listed|, h)
    {
      ghost var t := db.Rows();
      var pending := db.ListPendingDeposits(chain);
      listed := pending;
      queried := [];
      failed := false;
      var currentHash: map<nat, Option<string>> := map[];
      assert Run(t, Orphans(StaleOf(t, heads, pending[..0]))) == t;
      for i := 0 to |pending|
        invariant db.Rows() == Run(t, Orphans(StaleOf(t, heads, pending[..i])))
        invariant |db.deposits| == |t.deposits| && forall j :: i <= j < |pending| ==>
                db.deposits[pending[j]] == t.deposits[pending[j]]
        invariant CacheOk(currentHash, heads, queried)
        invariant forall h :: h in queried <==> AnyAsksAbout(t, pending, i, h)
      {
        StaleTurn(t, heads, pending, i);
        OnlyRow(db.Rows(), pending[i]);
        failed, currentHash := CheckOne(pending[i], heads, currentHash);
        if failed { return; }
      }
      assert pending[..|pending|] == pending;
    }

    /** The poll with its first phase in place: the same transaction, opened by the reorg check. */
    method ExecuteWithReorgCheck(known: Known, registry: map<string, Asset>, head: Option<Tags>, heads: Heads,
            now: Time)
      returns (report: Option<Report>, ghost listed: seq<DepositId>, ghost poll: Poll)
      requires Valid()
      modifies db, scanner, this`queried
      ensures Valid()
      ensures report.None? ==> db.Rows() == old(db.Rows())
      ensures report.Some? ==> OldestFirst(PendingAgesOf(old(db.Rows()), chain), listed, MAX_PENDING_PER_REORG_CHECK)
      ensures report.Some? ==> forall i :: 0 <= i < |listed| ==> listed[i] < |old(db.deposits)|
      ensures report.Some? ==>
                var checked := Run(old(db.Rows()), Orphans(StaleOf(old(db.Rows()), heads, listed)));
                && head == Some(poll.tags) && ValidPoll(scanner.ViewOf(known, registry), scanner.history, checked, poll)
                && db.Rows() == Run(checked, PollOps(chain, poll))
    {
      poll, listed := Poll(Tags(0, 0, 0), None, [], now), [];
      if head == None || !head.value.Consistent() { return None, [], poll; }
      var begins, commits: bool := *, *;
      if !begins { return None, [], poll; }
      var saved := db.Rows();
      var failed: bool, done: Report;
      failed, listed := CheckForReorgs(heads);
      if failed {
        db.Load(saved);
        return None, listed, poll;
      }
      failed, done, poll := Phases(known, registry, head.value, now);
      if failed || !commits {
        db.Load(saved);
        return None, listed, poll;
      }
      report := Some(done);
    }
  }

  /** The cache holds the node's answers for exactly the heights asked about, each once. */
  ghost predicate CacheOk(cache: map<nat, Option<string>>, heads: Heads, queried: seq<nat>) {
    && (forall h :: h in cache <==> h in queried) && (forall h :: h in cache ==> cache[h] == heads(h))
    && (forall i, j :: 0 <= i < j < |queried| ==> queried[i] != queried[j])
  }

  predicate AsksAbout(t: Tables, d: DepositId, h: nat) {
    d < |t.deposits| && t.deposits[d].transfer.blockHash != "" && t.deposits[d].transfer.block == h
  }

  predicate AnyAsksAbout(t: Tables, listed: seq<DepositId>, n: nat, h: nat)
    requires n <= |listed|
  {
    exists j :: 0 <= j < n && AsksAbout(t, listed[j], h)
  }

  lemma StaleTurn(t: Tables, heads: Heads, listed: seq<DepositId>, i: nat)
    requires i < |listed| && forall j :: 0 <= j < |listed| ==> listed[j] < |t.deposits|
    ensures Run(t, Orphans(StaleOf(t, heads, listed[..i + 1])))
         == if Stale(t, heads, listed[i]) then Apply(Run(t, Orphans(StaleOf(t, heads, listed[..i]))), Orphan(listed[i]))
            else Run(t, Orphans(StaleOf(t, heads, listed[..i])))
  {
    hide Apply, Stale;
    assert listed[..i + 1][..i] == listed[..i];
    OrphansSnoc(t, StaleOf(t, heads, listed[..i]), listed[i]);
    assert StaleOf(t, heads, listed[..i]) + [] == StaleOf(t, heads, listed[..i]);
  }

  lemma OnlyRow(t: Tables, d: DepositId)
    ensures |Apply(t, Orphan(d)).deposits| == |t.deposits|
    ensures forall other :: 0 <= other < |t.deposits| && other != d ==>
            Apply(t, Orphan(d)).deposits[other] == t.deposits[other]
  {
  }

  lemma FoundPositive(v: View, history: History, from: nat, to: nat, transfers: seq<Transfer>)
    requires forall x :: x in transfers ==> Found(v, history, from, to, x)
    ensures forall x :: x in transfers ==> x.amount > 0 && x.chain == v.chain && from <= x.block <= to
  {
    hide FoundAt;
    forall x | x in transfers ensures x.amount > 0 && x.chain == v.chain && from <= x.block <= to {
      var h :| from <= h <= to && FoundAt(v, h, history(h), x);
      HitShape(v, h, history(h), x);
    }
  }
}
