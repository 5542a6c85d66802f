/** How many withdrawals of a chain are in given statuses, and what each transaction does to that number. */
module Progress {
  import opened Domain
  import opened Totals
  import opened Ledger

  function Among(chain: Chain, statuses: set<Status>): Withdrawal -> int {
    (w: Withdrawal) => if w.chain == chain && w.status in statuses then 1 else 0
  }

  function Count(chain: Chain, statuses: set<Status>, t: Tables): (n: nat)
  {
    NotNegative(t.withdrawals, Among(chain, statuses));
    Total(t.withdrawals, Among(chain, statuses))
  }

  lemma {:induction false} NotNegative<T>(s: seq<T>, f: T -> int)
    requires forall x :: f(x) == 0 || f(x) == 1
    ensures Total(s, f) >= 0
  {
    if s != [] { NotNegative(s[..|s| - 1], f); }
  }

  /** The row whose status a transaction sets, and the status. */
  function StatusSet(t: Tables, op: Op): Option<(WithdrawalId, Status)> {
    match op
    case Approve(w, _) => Some((w, Approved))
    case Claim(_, w) => Some((w, Signed))
    case MarkBroadcast(w) => Some((w, Broadcast))
    case Settle(w, success, _) => Some((w, if success then Confirmed else Failed))
    case _ => None
  }

  function Delta(chain: Chain, statuses: set<Status>, t: Tables, op: Op): int
    requires Check(t, op) == None
  {
    if op.RequestWithdrawal? then
      if op.chain == chain
          && (if op.amount <= op.threshold then Approved else AwaitingApproval) in statuses then 1 else 0
    else
      match StatusSet(t, op)
      case Some((w, status)) =>
        var row := t.withdrawals[w];
        Among(chain, statuses)(row.(status := status)) - Among(chain, statuses)(row)
      case None => 0
  }

  lemma CountStep(chain: Chain, statuses: set<Status>, t: Tables, op: Op)
    requires Check(t, op) == None
    ensures Count(chain, statuses, Effect(t, op)) == Count(chain, statuses, t) + Delta(chain, statuses, t, op)
  {
    var f := Among(chain, statuses);
    if op.RequestWithdrawal? {
      var row := RequestedRow(t, op);
      hide Check, Effect;
      TotalAppend(t.withdrawals, row, f);
    } else {
      var changed := StatusRow(t, op);
      hide Check, Effect;
      if changed.Some? { TotalUpdate(t.withdrawals, changed.value.0, changed.value.1, f); }
    }
  }

  lemma RequestedRow(t: Tables, op: Op) returns (row: Withdrawal)
    requires Check(t, op) == None && op.RequestWithdrawal?
    ensures Effect(t, op).withdrawals == t.withdrawals + [row] && row.chain == op.chain
    ensures row.status == if op.amount <= op.threshold then Approved else AwaitingApproval
  {
    row := Effect(t, op).withdrawals[|t.withdrawals|];
  }

  /** The row a transaction rewrites, with its chain kept and its status as StatusSet says. */
  lemma StatusRow(t: Tables, op: Op) returns (changed: Option<(WithdrawalId, Withdrawal)>)
    requires Check(t, op) == None && !op.RequestWithdrawal?
    ensures changed == None ==> Effect(t, op).withdrawals == t.withdrawals && StatusSet(t, op) == None
    ensures StatusSet(t, op).Some? ==> StatusSet(t, op).value.0 < |t.withdrawals|
    ensures changed.Some? ==>
              var (w, row) := changed.value;
              && w < |t.withdrawals| && Effect(t, op).withdrawals == t.withdrawals[w := row]
                  && row.chain == t.withdrawals[w].chain
              && match StatusSet(t, op) {
                   case Some((x, status)) => x == w && row.status == status
                   case None => row.status == t.withdrawals[w].status
                 }
  {
    var t' := Effect(t, op);
    changed := match op
      case Approve(w, _) => Some((w, t'.withdrawals[w]))
      case Claim(_, w) => Some((w, t'.withdrawals[w]))
      case MarkBroadcast(w) => Some((w, t'.withdrawals[w]))
      case Settle(w, _, _) => Some((w, t'.withdrawals[w]))
      case AlertStuck(w) => Some((w, t'.withdrawals[w]))
      case _ => None;
  }

  /** The broadcaster's backlog: withdrawals approved or signed. */
  function Backlog(chain: Chain, t: Tables): nat { Count(chain, {Approved, Signed}, t) }

  /** An approval, automatic or manual: the only way work arrives. */
  predicate AddsWork(chain: Chain, t: Tables, op: Op) {
    match op
    case RequestWithdrawal(_, on, _, amount, _, _, threshold, _, _) => on == chain && amount <= threshold
    case Approve(w, _) => w < |t.withdrawals| && t.withdrawals[w].chain == chain
    case _ => false
  }

  /** Approvals raise the backlog by one, marking a row broadcast lowers it by one, nothing else moves it. */
  lemma BacklogStep(chain: Chain, t: Tables, op: Op)
    requires Check(t, op) == None
    ensures Backlog(chain, Effect(t, op)) == Backlog(chain, t)
         + (if AddsWork(chain, t, op) then 1 else 0)
         - (if op.MarkBroadcast? && t.withdrawals[op.w].chain == chain then 1 else 0)
  {
    CountStep(chain, {Approved, Signed}, t, op);
  }

  /** A count is zero exactly when no row of the chain is in one of the statuses. */
  lemma {:induction false} NoneLeft(chain: Chain, statuses: set<Status>, rows: seq<Withdrawal>)
    ensures Total(rows, Among(chain, statuses)) == 0
       <==> forall w :: 0 <= w < |rows| ==> !(rows[w].chain == chain && rows[w].status in statuses)
  {
    if rows != [] {
      var init, last := rows[..|rows| - 1], rows[|rows| - 1];
      NoneLeft(chain, statuses, init);
      NotNegative(init, Among(chain, statuses));
      assert forall w :: 0 <= w < |init| ==> init[w] == rows[w];
    }
  }

  function Which(chain: Chain, statuses: set<Status>, rows: seq<Withdrawal>): set<nat> {
    set w: nat | 0 <= w < |rows| && rows[w].chain == chain && rows[w].status in statuses
  }

  lemma {:induction false} CountIsSize(chain: Chain, statuses: set<Status>, rows: seq<Withdrawal>)
    ensures Total(rows, Among(chain, statuses)) == |Which(chain, statuses, rows)|
  {
    if rows != [] {
      var init, last := rows[..|rows| - 1], rows[|rows| - 1];
      CountIsSize(chain, statuses, init);
      assert Which(chain, statuses, rows)
          == Which(chain, statuses, init) + if last.chain == chain && last.status in statuses then {|init|} else {};
    }
  }
}
