/**
  The ledger as the history endpoint reads it: journal entries joined to postings and accounts, in
  the order of creation time and generated ids. Ids and times are taken before the commit, so a
  commit can land below a cursor already given out; whether one does decides what a walk returns.
 */
module LedgerPages {
  import opened Domain
  import opened Ledger
  import opened Cursor
  import opened Paging
  import opened FirstCustomer
  import Books

  /** Generated ids: a customer's text, and for each entry and posting a number in uuid order. */
  datatype Ids = Ids(customer: CustomerId -> Bytes, entry: nat -> nat, posting: nat -> nat)

  /** No two entries and no two postings have the same id; their order is no matter of commit order. */
  ghost predicate Unique(ids: Ids) {
    && (forall i, j :: ids.entry(i) == ids.entry(j) ==> i == j)
    && (forall i, j :: ids.posting(i) == ids.posting(j) ==> i == j)
  }

  function CauseType(c: Cause): string {
    match c
    case InternalTransfer(_) => "internal_transfer"
    case WithdrawalHold(_) => "withdrawal_hold"
    case WithdrawalSettlement(_) => "withdrawal_settlement"
    case WithdrawalFailure(_) => "withdrawal_failure"
    case DepositCredit(_) => DEPOSIT_CREDIT
  }

  /** A posting's row: joined to its entry and, under k, to its account. */
  function RowOf(t: Tables, ids: Ids, i: nat, k: AccountKey): Row
    requires i < |t.postings| && t.postings[i].entry < |t.journal|
  {
    var p, e := t.postings[i], t.journal[t.postings[i].entry];
    Row(if k.owner.Some? then Some(ids.customer(k.owner.value)) else None, k.kind == Available,
        Key(e.createdAt, ids.entry(p.entry), ids.posting(i)), CauseType(e.cause), p.amount, k.chain, k.asset)
  }

  /** posting i is on account k. */
  predicate Joins(t: Tables, i: nat, k: AccountKey) {
    i < |t.postings| && k in t.accounts && t.accounts[k] == t.postings[i].account
  }

  /** journal_entries joined to postings joined to accounts. */
  function RowsOf(t: Tables, ids: Ids): set<Row>
    requires Books.PostingsKnown(t)
  {
    set i: nat, k | 0 <= i < |t.postings| && k in t.accounts && Joins(t, i, k) :: RowOf(t, ids, i, k)
  }

  lemma RowKeyed(t: Tables, ids: Ids, i: nat, k: AccountKey)
    requires Books.PostingsKnown(t) && i < |t.postings|
    ensures t.postings[i].entry < |t.journal|
    ensures RowOf(t, ids, i, k).key
         == Key(t.journal[t.postings[i].entry].createdAt, ids.entry(t.postings[i].entry), ids.posting(i))
  {
  }

  lemma SameAccount(t: Tables, i: nat, k: AccountKey, k': AccountKey)
    requires Books.DistinctAccounts(t.accounts) && Joins(t, i, k) && Joins(t, i, k')
    ensures k == k'
  {
  }

  /** One row a posting: account ids and posting ids are unique. */
  lemma RowsDistinct(t: Tables, ids: Ids)
    requires Books.Referenced(t) && Unique(ids)
    ensures KeysDistinct(RowsOf(t, ids))
  {
    forall r, r' | r in RowsOf(t, ids) && r' in RowsOf(t, ids) && r.key == r'.key ensures r == r' {
      var i: nat, k :| 0 <= i < |t.postings| && Joins(t, i, k) && r == RowOf(t, ids, i, k);
      var i': nat, k' :| 0 <= i' < |t.postings| && Joins(t, i', k') && r' == RowOf(t, ids, i', k');
      RowKeyed(t, ids, i, k);
      RowKeyed(t, ids, i', k');
      assert ids.posting(i) == ids.posting(i');
      assert i == i' && Joins(t, i, k) && Joins(t, i, k');
      SameAccount(t, i, k, k');
    }
  }

  // ---- what a commit adds ----

  /** The timestamp a posting transaction stamps its entry with. */
  function StampOf(op: Op): Option<Time> {
    match op
    case InternalTransfer(_, _, _, _, _, _, now) => Some(now)
    case RequestWithdrawal(_, _, _, _, _, _, _, _, now) => Some(now)
    case Settle(_, _, now) => Some(now)
    case Credit(_, now) => Some(now)
    case _ => None
  }

  lemma StampIsEntry(t: Tables, op: Op)
    requires Check(t, op) == None
    ensures StampOf(op).Some? <==> Books.Legs(t, op).Some?
    ensures StampOf(op).Some? ==>
              && |Effect(t, op).journal| == |t.journal| + 1
              && Effect(t, op).journal[|t.journal|].createdAt == StampOf(op).value
              && Effect(t, op).journal[..|t.journal|] == t.journal
  {
  }

  predicate Extends(t: Tables, t': Tables) {
    && |t.postings| <= |t'.postings| && t'.postings[..|t.postings|] == t.postings
    && |t.journal| <= |t'.journal| && t'.journal[..|t.journal|] == t.journal
    && forall k :: k in t.accounts ==> k in t'.accounts && t'.accounts[k] == t.accounts[k]
  }

  lemma RowStays(t: Tables, t': Tables, ids: Ids, i: nat, k: AccountKey)
    requires Books.PostingsKnown(t) && Extends(t, t') && i < |t.postings| && Joins(t, i, k)
    ensures Joins(t', i, k) && t'.postings[i].entry < |t'.journal| && RowOf(t', ids, i, k) == RowOf(t, ids, i, k)
  {
    assert t'.postings[i] == t'.postings[..|t.postings|][i];
    assert t'.journal[t.postings[i].entry] == t'.journal[..|t.journal|][t.postings[i].entry];
  }

  lemma OldRow(t: Tables, t': Tables, ids: Ids, i: nat, k: AccountKey)
    requires Books.PostingsKnown(t) && Books.DistinctAccounts(t'.accounts) && Extends(t, t')
    requires i < |t.postings| && Joins(t', i, k) && t'.postings[i].entry < |t'.journal|
    ensures RowOf(t', ids, i, k) in RowsOf(t, ids)
  {
    assert t'.postings[i] == t'.postings[..|t.postings|][i];
    var k' :| k' in t.accounts && t.accounts[k'] == t.postings[i].account;
    assert k' == k;
    RowStays(t, t', ids, i, k);
  }

  lemma RowsExtend(t: Tables, t': Tables, ids: Ids)
    requires Books.PostingsKnown(t) && Books.PostingsKnown(t') && Extends(t, t')
    ensures RowsOf(t, ids) <= RowsOf(t', ids)
  {
    forall r | r in RowsOf(t, ids) ensures r in RowsOf(t', ids) {
      var i: nat, k :| 0 <= i < |t.postings| && Joins(t, i, k) && r == RowOf(t, ids, i, k);
      RowStays(t, t', ids, i, k);
    }
  }

  /** Every row carries the id of one of the entries there are. */
  lemma RowEntry(t: Tables, ids: Ids, r: Row)
    requires Books.PostingsKnown(t) && r in RowsOf(t, ids)
    ensures Known(t, ids, r.key)
  {
    var i: nat, k :| 0 <= i < |t.postings| && Joins(t, i, k) && r == RowOf(t, ids, i, k);
    RowKeyed(t, ids, i, k);
  }

  /** The key names an entry of the ledger. */
  ghost predicate Known(t: Tables, ids: Ids, key: Key) { exists e: nat :: e < |t.journal| && ids.entry(e) == key.entry }

  lemma KnownStays(t: Tables, t': Tables, ids: Ids, key: Key)
    requires Known(t, ids, key) && |t.journal| <= |t'.journal|
    ensures Known(t', ids, key)
  {
  }

  /** t' is t with one entry of two postings more. */
  predicate Posted(t: Tables, t': Tables, from: AccountKey, to: AccountKey) {
    && Extends(t, t') && |t'.postings| == |t.postings| + 2 && |t'.journal| == |t.journal| + 1
    && from in t'.accounts && to in t'.accounts
    && t'.postings[|t.postings|].entry == |t.journal| && t'.postings[|t.postings| + 1].entry == |t.journal|
    && t'.postings[|t.postings|].account == t'.accounts[from]
    && t'.postings[|t.postings| + 1].account == t'.accounts[to]
  }

  lemma PostedRows(t: Tables, t': Tables, ids: Ids, from: AccountKey, to: AccountKey)
    requires Books.PostingsKnown(t) && Books.PostingsKnown(t') && Books.DistinctAccounts(t'.accounts)
    requires Posted(t, t', from, to)
    ensures RowsOf(t', ids)
         == RowsOf(t, ids) + {RowOf(t', ids, |t.postings|, from), RowOf(t', ids, |t.postings| + 1, to)}
  {
    var n := |t.postings|;
    RowsExtend(t, t', ids);
    assert Joins(t', n, from) && Joins(t', n + 1, to);
    forall r | r in RowsOf(t', ids) && r !in RowsOf(t, ids)
      ensures r == RowOf(t', ids, n, from) || r == RowOf(t', ids, n + 1, to)
    {
      var i: nat, k :| 0 <= i < |t'.postings| && Joins(t', i, k) && r == RowOf(t', ids, i, k);
      RowKeyed(t', ids, i, k);
      if i < n { OldRow(t, t', ids, i, k); }
      SameAccount(t', i, k, if i == n then from else to);
    }
  }

  lemma NothingPosted(t: Tables, t': Tables, ids: Ids)
    requires Books.PostingsKnown(t) && Books.PostingsKnown(t') && Books.DistinctAccounts(t'.accounts)
    requires Extends(t, t') && t'.postings == t.postings && t'.journal == t.journal
    ensures RowsOf(t', ids) == RowsOf(t, ids)
  {
    RowsExtend(t, t', ids);
    forall r | r in RowsOf(t', ids) ensures r in RowsOf(t, ids) {
      var i: nat, k :| 0 <= i < |t'.postings| && Joins(t', i, k) && r == RowOf(t', ids, i, k);
      OldRow(t, t', ids, i, k);
    }
  }

  /** A transaction posts at most one entry, of two postings, under its stamp. */
  lemma PostsOnce(t: Tables, op: Op)
    requires Books.Referenced(t) && Check(t, op) == None
    ensures Books.Referenced(Effect(t, op)) && Extends(t, Effect(t, op))
    ensures Books.Legs(t, op) == None ==> Effect(t, op).postings == t.postings && Effect(t, op).journal == t.journal
    ensures Books.Legs(t, op).Some? ==>
              && Posted(t, Effect(t, op), Books.Legs(t, op).value.0, Books.Legs(t, op).value.1)
              && StampOf(op).Some? && Effect(t, op).journal[|t.journal|].createdAt == StampOf(op).value
  {
    hide Check, Effect, Books.Legs, StampOf;
    Books.ReferencedStep(t, op);
    Books.AccountsStep(t, op);
    Books.PostingsStep(t, op);
    StampIsEntry(t, op);
  }

  // ---- when a commit lands below a cursor ----

  /** The customer sees postings on the account. */
  predicate Shows(ids: Ids, c: Bytes, k: AccountKey) {
    k.owner.Some? && ids.customer(k.owner.value) == c && k.kind == Available
  }

  /** The transaction posts on an account of which the customer sees the postings. */
  predicate Concerns(t: Tables, ids: Ids, c: Bytes, op: Op)
    requires Check(t, op) == None
  {
    Books.Legs(t, op).Some? && (Shows(ids, c, Books.Legs(t, op).value.0) || Shows(ids, c, Books.Legs(t, op).value.1))
  }

  /** An entry stamped at with the given id sorts below the cursor. */
  predicate SortsBelow(at: Time, id: nat, bound: Key) { at < bound.at || (at == bound.at && id < bound.entry) }

  /**
    The transaction commits an entry the customer sees, stamped before the entry the cursor is at,
    or at the same time under a smaller id.
   */
  predicate Undercuts(t: Tables, ids: Ids, c: Bytes, op: Op, bound: Key) {
    && Check(t, op) == None && Concerns(t, ids, c, op)
    && StampOf(op).Some? && SortsBelow(StampOf(op).value, ids.entry(|t.journal|), bound)
  }

  /** What a reader with the cursor has still to see. */
  function Ahead(t: Tables, ids: Ids, c: Bytes, bound: Option<Key>): set<Row>
    requires Books.PostingsKnown(t)
  {
    Below(Visible(RowsOf(t, ids), c), bound)
  }

  /** A row of an entry that is not among the first n. */
  ghost predicate Newer(ids: Ids, r: Row, n: nat) { exists e: nat :: e >= n && ids.entry(e) == r.key.entry }

  /** On values: the two new rows are ahead of the reader exactly when they are seen and sort below. */
  lemma PostedAhead(t: Tables, t': Tables, ids: Ids, c: Bytes, bound: Key, from: AccountKey, to: AccountKey)
    requires Books.PostingsKnown(t) && Books.PostingsKnown(t') && Books.DistinctAccounts(t'.accounts)
    requires Posted(t, t', from, to) && Unique(ids) && Known(t, ids, bound)
    ensures Ahead(t, ids, c, Some(bound)) <= Ahead(t', ids, c, Some(bound))
    ensures var below := SortsBelow(t'.journal[|t.journal|].createdAt, ids.entry(|t.journal|), bound);
            if below && (Shows(ids, c, from) || Shows(ids, c, to)) then
              exists r :: r in Ahead(t', ids, c, Some(bound)) && Newer(ids, r, |t.journal|)
            else
              Ahead(t', ids, c, Some(bound)) == Ahead(t, ids, c, Some(bound))
  {
    var n := |t.postings|;
    PostedRows(t, t', ids, from, to);
    RowKeyed(t', ids, n, from);
    RowKeyed(t', ids, n + 1, to);
    hide RowsOf;
    var r, r' := RowOf(t', ids, n, from), RowOf(t', ids, n + 1, to);
    assert ids.entry(|t.journal|) != bound.entry;
    var below := SortsBelow(t'.journal[|t.journal|].createdAt, ids.entry(|t.journal|), bound);
    assert Earlier(r.key, bound) == below && Earlier(r'.key, bound) == below;
    assert Newer(ids, r, |t.journal|) && Newer(ids, r', |t.journal|);
    if below && Shows(ids, c, from) { assert r in Ahead(t', ids, c, Some(bound)); }
    if below && Shows(ids, c, to) { assert r' in Ahead(t', ids, c, Some(bound)); }
  }

  lemma NewerIsNew(t: Tables, ids: Ids, r: Row)
    requires Books.PostingsKnown(t) && Unique(ids) && Newer(ids, r, |t.journal|)
    ensures r !in RowsOf(t, ids)
  {
    if r in RowsOf(t, ids) { RowEntry(t, ids, r); }
  }

  /** A commit changes what a reader has still to see if and only if it undercuts the reader's cursor. */
  lemma CommitLandsBelow(t: Tables, ids: Ids, c: Bytes, op: Op, bound: Key)
    requires Books.Reconciled(t) && Unique(ids) && Known(t, ids, bound)
    ensures Books.Reconciled(Apply(t, op)) && Known(Apply(t, op), ids, bound) && |t.journal| <= |Apply(t, op).journal|
    ensures Ahead(t, ids, c, Some(bound)) <= Ahead(Apply(t, op), ids, c, Some(bound))
    ensures Ahead(Apply(t, op), ids, c, Some(bound)) == Ahead(t, ids, c, Some(bound)) <==>
            !Undercuts(t, ids, c, op, bound)
    ensures Undercuts(t, ids, c, op, bound) ==>
              exists r :: r in Ahead(Apply(t, op), ids, c, Some(bound)) && Newer(ids, r, |t.journal|)
  {
    hide Check, Effect, Books.Reconciled, Ahead, Undercuts, Known, Newer;
    Books.ReconciledStep(t, op);
    ReferencedOf(t);
    ReferencedOf(Apply(t, op));
    if Check(t, op) == None {
      CommitAhead(t, ids, c, op, bound);
    } else {
      NotCommitted(t, ids, c, op, bound);
    }
  }

  lemma NotCommitted(t: Tables, ids: Ids, c: Bytes, op: Op, bound: Key)
    requires Check(t, op) != None
    ensures !Undercuts(t, ids, c, op, bound)
  {
  }

  lemma CommitAhead(t: Tables, ids: Ids, c: Bytes, op: Op, bound: Key)
    requires Books.Referenced(t) && Books.Referenced(Apply(t, op)) && Unique(ids) && Known(t, ids, bound)
    requires Check(t, op) == None
    ensures Known(Apply(t, op), ids, bound) && |t.journal| <= |Apply(t, op).journal|
    ensures Ahead(t, ids, c, Some(bound)) <= Ahead(Apply(t, op), ids, c, Some(bound))
    ensures if Undercuts(t, ids, c, op, bound) then
              && (exists r :: r in Ahead(Apply(t, op), ids, c, Some(bound)) && Newer(ids, r, |t.journal|))
              && Ahead(Apply(t, op), ids, c, Some(bound)) != Ahead(t, ids, c, Some(bound))
            else
              Ahead(Apply(t, op), ids, c, Some(bound)) == Ahead(t, ids, c, Some(bound))
  {
    hide Check, Effect, RowsOf, Books.Legs, StampOf, Ahead;
    PostsOnce(t, op);
    KnownStays(t, Effect(t, op), ids, bound);
    if Books.Legs(t, op).Some? {
      PostedAhead(t, Effect(t, op), ids, c, bound, Books.Legs(t, op).value.0, Books.Legs(t, op).value.1);
      if Undercuts(t, ids, c, op, bound) {
        var r :| r in Ahead(Effect(t, op), ids, c, Some(bound)) && Newer(ids, r, |t.journal|);
        NewerNotAhead(t, ids, c, Some(bound), r);
      }
    } else {
      NothingAhead(t, Effect(t, op), ids, c, Some(bound));
    }
  }

  lemma NothingAhead(t: Tables, t': Tables, ids: Ids, c: Bytes, bound: Option<Key>)
    requires Books.PostingsKnown(t) && Books.PostingsKnown(t') && Books.DistinctAccounts(t'.accounts)
    requires Extends(t, t') && t'.postings == t.postings && t'.journal == t.journal
    ensures Ahead(t', ids, c, bound) == Ahead(t, ids, c, bound)
  {
    NothingPosted(t, t', ids);
  }

  lemma ReferencedOf(t: Tables)
    requires Books.Reconciled(t)
    ensures Books.Referenced(t)
  {
  }

  /** No transaction of the history undercuts the cursor. */
  ghost predicate NoneUndercuts(t: Tables, ids: Ids, c: Bytes, ops: seq<Op>, bound: Key) {
    ops != [] ==>
      && NoneUndercuts(t, ids, c, ops[..|ops| - 1], bound)
      && !Undercuts(Run(t, ops[..|ops| - 1]), ids, c, ops[|ops| - 1], bound)
  }

  /** Over any history, what a reader has still to see stays the same if and only if nothing undercuts the cursor. */
  lemma {:induction false} RestStays(t: Tables, ids: Ids, c: Bytes, ops: seq<Op>, bound: Key)
    requires Books.Reconciled(t) && Unique(ids) && Known(t, ids, bound)
    ensures Books.Reconciled(Run(t, ops)) && Known(Run(t, ops), ids, bound) && |t.journal| <= |Run(t, ops).journal|
    ensures Ahead(t, ids, c, Some(bound)) <= Ahead(Run(t, ops), ids, c, Some(bound))
    ensures Ahead(Run(t, ops), ids, c, Some(bound)) == Ahead(t, ids, c, Some(bound)) <==>
            NoneUndercuts(t, ids, c, ops, bound)
    ensures !NoneUndercuts(t, ids, c, ops, bound) ==>
              exists r :: r in Ahead(Run(t, ops), ids, c, Some(bound)) && Newer(ids, r, |t.journal|)
  {
    hide Apply, Books.Reconciled, Ahead, Undercuts, Known;
    if ops != [] {
      var init, op := ops[..|ops| - 1], ops[|ops| - 1];
      RestStays(t, ids, c, init, bound);
      var s := Run(t, init);
      CommitLandsBelow(s, ids, c, op, bound);
      ReferencedOf(t);
      ReferencedOf(s);
      ReferencedOf(Run(t, ops));
      if !NoneUndercuts(t, ids, c, init, bound) {
        var r :| r in Ahead(s, ids, c, Some(bound)) && Newer(ids, r, |t.journal|);
        assert r in Ahead(Run(t, ops), ids, c, Some(bound));
        assert r !in Ahead(t, ids, c, Some(bound)) by { NewerNotAhead(t, ids, c, Some(bound), r); }
      } else if Undercuts(s, ids, c, op, bound) {
        var r :| r in Ahead(Run(t, ops), ids, c, Some(bound)) && Newer(ids, r, |s.journal|);
        NewerLess(ids, r, |s.journal|, |t.journal|);
      }
    }
  }

  lemma NewerNotAhead(t: Tables, ids: Ids, c: Bytes, bound: Option<Key>, r: Row)
    requires Books.PostingsKnown(t) && Unique(ids) && Newer(ids, r, |t.journal|)
    ensures r !in Ahead(t, ids, c, bound)
  {
    NewerIsNew(t, ids, r);
  }

  lemma NewerLess(ids: Ids, r: Row, n: nat, m: nat)
    requires Newer(ids, r, n) && m <= n
    ensures Newer(ids, r, m)
  {
  }

  // ---- walking the pages while the ledger moves ----

  /** What the next request of a reader at bound starts from, newest first. */
  ghost function Rest(t: Tables, ids: Ids, c: Bytes, bound: Option<Key>): (s: seq<Row>)
    requires Books.Reconciled(t) && Unique(ids)
    ensures Lists(s, Ahead(t, ids, c, bound))
  {
    RowsDistinct(t, ids);
    BelowDistinct(RowsOf(t, ids), c, bound);
    Newest(Ahead(t, ids, c, bound))
  }

  /** A page further on, on the same ledger, the rest is the rest. */
  lemma NextRest(t: Tables, ids: Ids, c: Bytes, bound: Option<Key>, size: nat)
    requires Books.Reconciled(t) && Unique(ids) && 0 < size <= |Rest(t, ids, c, bound)|
    ensures var rest := Rest(t, ids, c, bound); Rest(t, ids, c, Some(rest[size - 1].key)) == rest[size..]
  {
    var rest := Rest(t, ids, c, bound);
    var rows, key := Visible(RowsOf(t, ids), c), rest[size - 1].key;
    assert rest[size - 1] in Below(rows, bound);
    BelowIsRest(rest, Below(rows, bound), size);
    BelowTwice(rows, bound, key);
    OneList(Rest(t, ids, c, Some(key)), rest[size..], Below(rows, Some(key)));
  }

  /** What commits after the next request: nothing, once the story ends. */
  function Meanwhile(between: seq<seq<Op>>): seq<Op> { if between == [] then [] else between[0] }

  function Afterwards(between: seq<seq<Op>>): seq<seq<Op>> { if between == [] then [] else between[1..] }

  lemma RunReconciled(t: Tables, ops: seq<Op>)
    requires Books.Reconciled(t)
    ensures Books.Reconciled(Run(t, ops))
  {
    hide Apply, Books.Reconciled;
    if ops != [] {
      RunReconciled(t, ops[..|ops| - 1]);
      Books.ReconciledStep(Run(t, ops[..|ops| - 1]), ops[|ops| - 1]);
    }
  }

  /** The rows a reader at bound is given, page by page, with between[i] committed after the i-th of its requests. */
  ghost function Walk(t: Tables, ids: Ids, c: Bytes, size: nat, bound: Option<Key>, between: seq<seq<Op>>): seq<Row>
    requires Books.Reconciled(t) && Unique(ids) && size > 0
    decreases |between|, |Rest(t, ids, c, bound)|
  {
    var rest := Rest(t, ids, c, bound);
    if |rest| <= size then rest
    else
      NextRest(t, ids, c, bound, size);
      RunReconciled(t, Meanwhile(between));
      rest[..size] + Walk(Run(t, Meanwhile(between)), ids, c, size, Some(rest[size - 1].key), Afterwards(between))
  }

  /** At no point of the walk does a commit undercut the cursor just given out. */
  ghost predicate Undisturbed(t: Tables, ids: Ids, c: Bytes, size: nat, bound: Option<Key>, between: seq<seq<Op>>)
    requires Books.Reconciled(t) && Unique(ids) && size > 0
    decreases |between|, |Rest(t, ids, c, bound)|
  {
    var rest := Rest(t, ids, c, bound);
    |rest| <= size ||
      (NextRest(t, ids, c, bound, size);
       RunReconciled(t, Meanwhile(between));
       var key := rest[size - 1].key;
       && NoneUndercuts(t, ids, c, Meanwhile(between), key)
       && Undisturbed(Run(t, Meanwhile(between)), ids, c, size, Some(key), Afterwards(between)))
  }

  /** One request and what commits after it. */
  lemma Turn(t: Tables, ids: Ids, c: Bytes, size: nat, bound: Option<Key>, ops: seq<Op>)
    requires Books.Reconciled(t) && Unique(ids) && 0 < size < |Rest(t, ids, c, bound)|
    ensures var rest, t' := Rest(t, ids, c, bound), Run(t, ops);
            var key := rest[size - 1].key;
            && Books.Reconciled(t') && |t.journal| <= |t'.journal|
            && (forall r :: r in rest[size..] ==> r in Rest(t', ids, c, Some(key)))
            && (forall r :: r in Rest(t', ids, c, Some(key)) ==> Earlier(r.key, key))
            && (if NoneUndercuts(t, ids, c, ops, key) then Rest(t', ids, c, Some(key)) == rest[size..]
                else exists r :: r in Rest(t', ids, c, Some(key)) && Newer(ids, r, |t.journal|))
  {
    var rest := Rest(t, ids, c, bound);
    var row := rest[size - 1];
    assert row in Ahead(t, ids, c, bound);
    ReferencedOf(t);
    RowEntry(t, ids, row);
    RestStays(t, ids, c, ops, row.key);
    NextRest(t, ids, c, bound, size);
    hide RowsOf, Visible, Books.Reconciled, Newer;
    var after := Rest(Run(t, ops), ids, c, Some(row.key));
    if NoneUndercuts(t, ids, c, ops, row.key) { OneList(after, rest[size..], Ahead(t, ids, c, Some(row.key))); }
  }

  /** Nothing that was there when the reader came by is lost. */
  lemma {:induction false} WalkCovers(t: Tables, ids: Ids, c: Bytes, size: nat, bound: Option<Key>,
          between: seq<seq<Op>>)
    requires Books.Reconciled(t) && Unique(ids) && size > 0
    ensures forall r :: r in Rest(t, ids, c, bound) ==> r in Walk(t, ids, c, size, bound, between)
    decreases |between|, |Rest(t, ids, c, bound)|
  {
    hide Rest, Books.Reconciled;
    var rest := Rest(t, ids, c, bound);
    if |rest| > size {
      var ops, key := Meanwhile(between), rest[size - 1].key;
      NextRest(t, ids, c, bound, size);
      Turn(t, ids, c, size, bound, ops);
      WalkCovers(Run(t, ops), ids, c, size, Some(key), Afterwards(between));
      assert rest == rest[..size] + rest[size..];
    }
  }

  /** Nothing is given twice, and the order holds over the whole walk, whatever commits meanwhile. */
  lemma {:induction false} WalkDescends(t: Tables, ids: Ids, c: Bytes, size: nat, bound: Option<Key>,
          between: seq<seq<Op>>)
    requires Books.Reconciled(t) && Unique(ids) && size > 0
    ensures var s := Walk(t, ids, c, size, bound, between);
            && (forall i, j :: 0 <= i < j < |s| ==> Earlier(s[j].key, s[i].key))
            && (bound.Some? ==> forall r :: r in s ==> Earlier(r.key, bound.value))
    decreases |between|, |Rest(t, ids, c, bound)|
  {
    hide Rest, Books.Reconciled, Earlier, Walk;
    var rest := Rest(t, ids, c, bound);
    RestDescends(t, ids, c, bound);
    if |rest| > size {
      var t', left, key := Run(t, Meanwhile(between)), Afterwards(between), rest[size - 1].key;
      NextOfWalk(t, ids, c, size, bound, between);
      WalkDescends(t', ids, c, size, Some(key), left);
      JoinDescends(rest[..size], Walk(t', ids, c, size, Some(key), left), bound);
    } else {
      LastOfWalk(t, ids, c, size, bound, between);
    }
  }

  lemma RestDescends(t: Tables, ids: Ids, c: Bytes, bound: Option<Key>)
    requires Books.Reconciled(t) && Unique(ids)
    ensures var s := Rest(t, ids, c, bound); forall i, j :: 0 <= i < j < |s| ==> Earlier(s[j].key, s[i].key)
    ensures bound.Some? ==> forall r :: r in Rest(t, ids, c, bound) ==> Earlier(r.key, bound.value)
  {
    assert forall r :: r in Rest(t, ids, c, bound) ==> r in Ahead(t, ids, c, bound);
    hide Rest;
  }

  lemma JoinDescends(first: seq<Row>, second: seq<Row>, bound: Option<Key>)
    requires first != [] && forall i, j :: 0 <= i < j < |first| ==> Earlier(first[j].key, first[i].key)
    requires forall i, j :: 0 <= i < j < |second| ==> Earlier(second[j].key, second[i].key)
    requires forall r :: r in second ==> Earlier(r.key, first[|first| - 1].key)
    requires bound.Some? ==> forall r :: r in first ==> Earlier(r.key, bound.value)
    ensures var s := first + second;
            && (forall i, j :: 0 <= i < j < |s| ==> Earlier(s[j].key, s[i].key))
            && (bound.Some? ==> forall r :: r in s ==> Earlier(r.key, bound.value))
  {
    var s, last := first + second, first[|first| - 1];
    forall r, i | r in second && 0 <= i < |first| ensures Earlier(r.key, first[i].key) {
      assert i < |first| - 1 ==> Earlier(last.key, first[i].key);
    }
    if bound.Some? {
      forall r | r in second ensures Earlier(r.key, bound.value) { assert Earlier(last.key, bound.value); }
    }
  }

  lemma {:induction false} WalkUndisturbed(t: Tables, ids: Ids, c: Bytes, size: nat, bound: Option<Key>,
          between: seq<seq<Op>>)
    requires Books.Reconciled(t) && Unique(ids) && size > 0 && Undisturbed(t, ids, c, size, bound, between)
    ensures Walk(t, ids, c, size, bound, between) == Rest(t, ids, c, bound)
    decreases |between|, |Rest(t, ids, c, bound)|
  {
    hide Rest, Books.Reconciled;
    var rest := Rest(t, ids, c, bound);
    if |rest| > size {
      var ops, key := Meanwhile(between), rest[size - 1].key;
      NextRest(t, ids, c, bound, size);
      Turn(t, ids, c, size, bound, ops);
      WalkUndisturbed(Run(t, ops), ids, c, size, Some(key), Afterwards(between));
      assert rest == rest[..size] + rest[size..];
    }
  }

  lemma {:induction false} WalkDisturbed(t: Tables, ids: Ids, c: Bytes, size: nat, bound: Option<Key>,
          between: seq<seq<Op>>)
    returns (r: Row)
    requires Books.Reconciled(t) && Unique(ids) && size > 0 && !Undisturbed(t, ids, c, size, bound, between)
    ensures r in Walk(t, ids, c, size, bound, between) && Newer(ids, r, |t.journal|)
    decreases |between|, |Rest(t, ids, c, bound)|
  {
    hide Rest, Books.Reconciled, Newer;
    var rest := Rest(t, ids, c, bound);
    var ops, key := Meanwhile(between), rest[size - 1].key;
    NextRest(t, ids, c, bound, size);
    Turn(t, ids, c, size, bound, ops);
    var t' := Run(t, ops);
    if NoneUndercuts(t, ids, c, ops, key) {
      r := WalkDisturbed(t', ids, c, size, Some(key), Afterwards(between));
      NewerLess(ids, r, |t'.journal|, |t.journal|);
    } else {
      r :| r in Rest(t', ids, c, Some(key)) && Newer(ids, r, |t.journal|);
      WalkCovers(t', ids, c, size, Some(key), Afterwards(between));
    }
  }

  /** The customer's history as the ledger has it now, newest first. */
  ghost function HistoryOf(t: Tables, ids: Ids, c: Bytes): seq<Row>
    requires Books.Reconciled(t) && Unique(ids)
  {
    RowsDistinct(t, ids);
    Newest(Visible(RowsOf(t, ids), c))
  }

  lemma HistoryIsRest(t: Tables, ids: Ids, c: Bytes)
    requires Books.Reconciled(t) && Unique(ids)
    ensures HistoryOf(t, ids, c) == Rest(t, ids, c, None)
  {
    RowsDistinct(t, ids);
    assert Below(Visible(RowsOf(t, ids), c), None) == Visible(RowsOf(t, ids), c);
  }

  /**
    Following next cursors over a ledger that moves returns the history as it was at the first
    request if and only if no commit of the walk undercuts the cursor just given out. In any case
    every row of that history is returned, and no row twice.
   */
  lemma WalkIsHistory(t: Tables, ids: Ids, c: Bytes, size: nat, between: seq<seq<Op>>)
    requires Books.Reconciled(t) && Unique(ids) && size > 0
    ensures ItemsOf(Walk(t, ids, c, size, None, between)) == ItemsOf(HistoryOf(t, ids, c))
       <==> Undisturbed(t, ids, c, size, None, between)
    ensures forall r :: r in HistoryOf(t, ids, c) ==> r in Walk(t, ids, c, size, None, between)
    ensures var s := Walk(t, ids, c, size, None, between);
            forall i, j :: 0 <= i < j < |s| ==> Earlier(s[j].key, s[i].key)
  {
    hide Rest, Walk, Undisturbed, HistoryOf, Books.Reconciled, Newer, Earlier;
    HistoryIsRest(t, ids, c);
    WalkCovers(t, ids, c, size, None, between);
    WalkDescends(t, ids, c, size, None, between);
    if Undisturbed(t, ids, c, size, None, between) {
      WalkUndisturbed(t, ids, c, size, None, between);
    } else {
      var r := WalkDisturbed(t, ids, c, size, None, between);
      NewerItem(t, ids, c, r, Walk(t, ids, c, size, None, between));
    }
  }

  /** An item of a newer entry is not in the history. */
  lemma NewerItem(t: Tables, ids: Ids, c: Bytes, r: Row, s: seq<Row>)
    requires Books.Reconciled(t) && Unique(ids) && r in s && Newer(ids, r, |t.journal|)
    ensures ItemsOf(s) != ItemsOf(Rest(t, ids, c, None))
  {
    var rest := Rest(t, ids, c, None);
    var i :| 0 <= i < |s| && s[i] == r;
    if i < |rest| {
      assert rest[i] in Ahead(t, ids, c, None);
      ReferencedOf(t);
      RowEntry(t, ids, rest[i]);
      hide RowsOf, Rest;
      assert ItemsOf(s)[i].id != ItemsOf(rest)[i].id;
    }
  }

  /** The customers there are, as text. */
  function CustomersOf(t: Tables, ids: Ids): set<Bytes> { set a | a in t.addresses :: ids.customer(t.addresses[a]) }

  lemma {:induction false} CustomersStay(t: Tables, ids: Ids, ops: seq<Op>)
    ensures CustomersOf(t, ids) <= CustomersOf(Run(t, ops), ids)
  {
    hide Apply, CustomersOf;
    if ops != [] {
      CustomersStay(t, ids, ops[..|ops| - 1]);
      CustomersStep(Run(t, ops[..|ops| - 1]), ids, ops[|ops| - 1]);
    }
  }

  lemma CustomersStep(t: Tables, ids: Ids, op: Op)
    ensures CustomersOf(t, ids) <= CustomersOf(Apply(t, op), ids)
  {
    AddressesStay(t, op);
    hide Apply;
    var t' := Apply(t, op);
    forall x | x in CustomersOf(t, ids) ensures x in CustomersOf(t', ids) {
      var a :| a in t.addresses && ids.customer(t.addresses[a]) == x;
      assert a in t'.addresses && ids.customer(t'.addresses[a]) == x;
    }
  }

  lemma AddressesStay(t: Tables, op: Op)
    ensures forall a :: a in t.addresses ==> a in Apply(t, op).addresses && Apply(t, op).addresses[a] == t.addresses[a]
  {
  }

  /** The reader holds the cursor for bound. */
  ghost predicate Holds(k: Codec, c: Bytes, bound: Option<Key>, cursor: string) {
    if bound == None then cursor == "" else cursor != "" && DecodeCursor(k, c, cursor) == bound
  }

  lemma NextHeld(k: Codec, c: Bytes, key: Key)
    requires Faithful(k) && Plain(c)
    ensures Holds(k, c, Some(key), EncodeCursor(k, c, key)) && EncodeCursor(k, c, key) != ""
  {
    CursorRoundTrip(k, c, key, c);
    assert EncodeCursor(k, c, key) != "";
  }

  lemma ItemsJoin(a: seq<Row>, b: seq<Row>)
    ensures ItemsOf(a + b) == ItemsOf(a) + ItemsOf(b)
  {
  }

  /** One request of the endpoint, as the ledger is now. */
  method RequestPage(k: Codec, t: Tables, ids: Ids, c: Bytes, size: nat, cursor: string, ghost bound: Option<Key>)
    returns (page: Listing)
    requires Books.Reconciled(t) && Unique(ids) && size > 0 && c in CustomersOf(t, ids) && Holds(k, c, bound, cursor)
    ensures page.Page? && page == PageOf(k, c, size, Rest(t, ids, c, bound))
  {
    ReferencedOf(t);
    RowsDistinct(t, ids);
    hide DecodeCursor, EncodeCursor, CustomersOf, RowsOf, Books.Reconciled, Books.Referenced;
    page := ListCustomerTransactions(k, RowsOf(t, ids), CustomersOf(t, ids), c, size, cursor);
  }

  /**
    A client following next cursors, with between[i] committed after its i-th request. It ends with
    the history as it was at the first request if and only if nothing undercuts a cursor it holds.
   */
  method WalkLedger(k: Codec, t: Tables, ids: Ids, c: Bytes, size: nat, between: seq<seq<Op>>)
    returns (items: seq<Item>)
    requires Faithful(k) && Plain(c) && Books.Reconciled(t) && Unique(ids) && size > 0 && c in CustomersOf(t, ids)
    ensures items == ItemsOf(Walk(t, ids, c, size, None, between))
    ensures items == ItemsOf(HistoryOf(t, ids, c)) <==> Undisturbed(t, ids, c, size, None, between)
  {
    hide DecodeCursor, EncodeCursor, Faithful, Plain, CustomersOf, Books.Reconciled, Unique, Rest, HistoryOf,
        Undisturbed;
    hide ItemsOf, Holds, Run, Walk, PageOf, Meanwhile, Afterwards;
    WalkIsHistory(t, ids, c, size, between);
    var now, cursor, left := t, "", between;
    ghost var bound: Option<Key> := None;
    ghost var all := Walk(t, ids, c, size, None, between);
    ghost var given: seq<Row> := [];
    items := [];
    NothingGiven(all);
    StartHeld(k, c);
    while true
      invariant Books.Reconciled(now) && c in CustomersOf(now, ids) && Holds(k, c, bound, cursor)
      invariant items == ItemsOf(given) && given + Walk(now, ids, c, size, bound, left) == all
      decreases |left|, |Rest(now, ids, c, bound)|
    {
      ghost var rest := Rest(now, ids, c, bound);
      var page := RequestPage(k, now, ids, c, size, cursor, bound);
      items := items + page.items;
      if page.next == "" {
        LastPage(k, c, size, rest);
        LastOfWalk(now, ids, c, size, bound, left);
        ItemsJoin(given, rest);
        return;
      }
      FullPage(k, c, size, rest);
      ghost var key := rest[size - 1].key;
      NextHeld(k, c, key);
      NextOfWalk(now, ids, c, size, bound, left);
      ItemsJoin(given, rest[..size]);
      CustomersStay(now, ids, Meanwhile(left));
      given, bound := given + rest[..size], Some(key);
      cursor, now, left := page.next, Run(now, Meanwhile(left)), Afterwards(left);
    }
  }

  lemma NothingGiven(all: seq<Row>)
    ensures ItemsOf([]) == [] && [] + all == all
  {
  }

  lemma LastOfWalk(t: Tables, ids: Ids, c: Bytes, size: nat, bound: Option<Key>, between: seq<seq<Op>>)
    requires Books.Reconciled(t) && Unique(ids) && size > 0 && |Rest(t, ids, c, bound)| <= size
    ensures Walk(t, ids, c, size, bound, between) == Rest(t, ids, c, bound)
  {
  }

  /** A page taken off the walk leaves the walk from the next cursor, over the ledger as it is then. */
  lemma NextOfWalk(t: Tables, ids: Ids, c: Bytes, size: nat, bound: Option<Key>, between: seq<seq<Op>>)
    requires Books.Reconciled(t) && Unique(ids) && 0 < size < |Rest(t, ids, c, bound)|
    ensures var t', left := Run(t, Meanwhile(between)), Afterwards(between);
            var rest := Rest(t, ids, c, bound);
            var next := Some(rest[size - 1].key);
            && Books.Reconciled(t')
            && Walk(t, ids, c, size, bound, between) == rest[..size] + Walk(t', ids, c, size, next, left)
            && (|left| < |between| || (|left| == |between| && |Rest(t', ids, c, next)| < |rest|))
  {
    hide Rest, Books.Reconciled;
    NextRest(t, ids, c, bound, size);
    RunReconciled(t, Meanwhile(between));
    RunEmpty(t);
  }

  lemma StartHeld(k: Codec, c: Bytes)
    ensures Holds(k, c, None, "")
  {
  }

  lemma LastPage(k: Codec, c: Bytes, size: nat, rest: seq<Row>)
    requires size > 0 && PageOf(k, c, size, rest).next == ""
    ensures |rest| <= size && PageOf(k, c, size, rest).items == ItemsOf(rest)
  {
    assert forall key :: EncodeCursor(k, c, key) != "";
    hide EncodeCursor;
  }

  lemma FullPage(k: Codec, c: Bytes, size: nat, rest: seq<Row>)
    requires size > 0 && PageOf(k, c, size, rest).next != ""
    ensures |rest| > size && PageOf(k, c, size, rest).items == ItemsOf(rest[..size])
    ensures PageOf(k, c, size, rest).next == EncodeCursor(k, c, rest[size - 1].key)
  {
  }

  // ---- a late commit ----

  function HoldOne(chain: Chain, key: string, now: Time): Op {
    RequestWithdrawal(CUSTOMER, chain, Eth, 1, "0x01", 0, 1, key, now)
  }

  /** The first customer has been credited 2 at time 0, and one of it is held at time 1. */
  function HeldOnce(chain: Chain, start: nat): Tables { Apply(Funded(chain, start, 2), HoldOne(chain, "k", 1)) }

  lemma HeldOnceFacts(chain: Chain, start: nat)
    ensures Reachable(HeldOnce(chain, start))
    ensures var t, a, h := HeldOnce(chain, start), AvailableOf(CUSTOMER, chain, Eth), HoldOf(CUSTOMER, chain, Eth);
            && a in t.accounts && h in t.accounts && FloatOf(chain, Eth) in t.accounts
            && t.journal == [Entry(DepositCredit(0), 0), Entry(WithdrawalHold("k"), 1)]
            && t.postings == [Posting(0, t.accounts[FloatOf(chain, Eth)], -2), Posting(0, t.accounts[a], 2),
                              Posting(1, t.accounts[a], -1), Posting(1, t.accounts[h], 1)]
            && Balance(t, t.accounts[a]) == 1
  {
    hide Reachable, Funded, Effect, Check, Balance, CustomerKeys, Numbers;
    var t, op := Funded(chain, start, 2), HoldOne(chain, "k", 1);
    FundedReached(chain, start, 2);
    FirstHold(chain, start);
    ReachedNext(t, op);
    HeldTables(chain, start);
    Books.BalanceStep(t, op, t.accounts[AvailableOf(CUSTOMER, chain, Eth)]);
  }

  /** The first hold can be taken, and moves one of the two. */
  lemma FirstHold(chain: Chain, start: nat)
    ensures var t, op, a, h :=
              Funded(chain, start, 2), HoldOne(chain, "k", 1), AvailableOf(CUSTOMER, chain, Eth),
                  HoldOf(CUSTOMER, chain, Eth);
            && Check(t, op) == None && a in t.accounts && h in t.accounts && t.accounts[a] != t.accounts[h]
            && Balance(t, t.accounts[a]) == 2 && Books.Moved(t, op, t.accounts[a]) == -1
  {
    FundedFacts(chain, start, 2);
    hide Funded, Balance, Causes, CustomerKeys, Numbers;
  }

  lemma HeldIsEffect(chain: Chain, start: nat)
    ensures Check(Funded(chain, start, 2), HoldOne(chain, "k", 1)) == None
    ensures HeldOnce(chain, start) == Effect(Funded(chain, start, 2), HoldOne(chain, "k", 1))
  {
    FirstHold(chain, start);
    hide Funded, Check, Effect, HoldOne;
  }

  lemma HeldTables(chain: Chain, start: nat)
    ensures var t, f, a, h :=
              HeldOnce(chain, start), Funded(chain, start, 2), AvailableOf(CUSTOMER, chain, Eth),
                  HoldOf(CUSTOMER, chain, Eth);
            && t.accounts == f.accounts && a in t.accounts && h in t.accounts && FloatOf(chain, Eth) in t.accounts
            && t.journal == [Entry(DepositCredit(0), 0), Entry(WithdrawalHold("k"), 1)]
            && t.postings == [Posting(0, t.accounts[FloatOf(chain, Eth)], -2), Posting(0, t.accounts[a], 2),
                              Posting(1, t.accounts[a], -1), Posting(1, t.accounts[h], 1)]
  {
    HeldIsEffect(chain, start);
    FundedFacts(chain, start, 2);
    FloatStays(chain, start);
    hide Check, HeldOnce, Balance, Causes, CustomerKeys, Numbers;
  }

  lemma FloatStays(chain: Chain, start: nat)
    ensures FloatOf(chain, Eth) in Funded(chain, start, 2).accounts
    ensures Funded(chain, start, 2).accounts[FloatOf(chain, Eth)] == 1
  {
    NumbersDistinct();
    hide Numbers, CustomerKeys;
    assert FloatOf(chain, Eth) !in Numbers();
  }

  /** The two rows the first customer then sees, newest first. */
  function HeldRows(chain: Chain, ids: Ids): seq<Row> {
    var c := Some(ids.customer(CUSTOMER));
    [Row(c, true, Key(1, ids.entry(1), ids.posting(2)), "withdrawal_hold", -1, chain, Eth),
     Row(c, true, Key(0, ids.entry(0), ids.posting(1)), DEPOSIT_CREDIT, 2, chain, Eth)]
  }

  lemma HeldOnceRest(chain: Chain, start: nat, ids: Ids)
    requires Unique(ids)
    ensures Books.Reconciled(HeldOnce(chain, start))
    ensures Rest(HeldOnce(chain, start), ids, ids.customer(CUSTOMER), None) == HeldRows(chain, ids)
  {
    var t, c := HeldOnce(chain, start), ids.customer(CUSTOMER);
    HeldOnceFacts(chain, start);
    hide HeldOnce;
    var origin, ops :| Reaches(origin, ops, t);
    Books.AlwaysReconciled(origin, ops);
    ReferencedOf(t);
    HeldOnceRows(chain, t, ids);
    hide RowsOf, Books.Reconciled;
    OneList(Rest(t, ids, c, None), HeldRows(chain, ids), Ahead(t, ids, c, None));
  }

  /** Of the four postings the customer sees the two on its available account. */
  lemma HeldOnceRows(chain: Chain, t: Tables, ids: Ids)
    requires Books.Referenced(t) && Unique(ids)
    requires AvailableOf(CUSTOMER, chain, Eth) in t.accounts && HoldOf(CUSTOMER, chain, Eth) in t.accounts
    requires FloatOf(chain, Eth) in t.accounts
    requires var a, h := t.accounts[AvailableOf(CUSTOMER, chain, Eth)], t.accounts[HoldOf(CUSTOMER, chain, Eth)];
             && t.journal == [Entry(DepositCredit(0), 0), Entry(WithdrawalHold("k"), 1)]
             && t.postings
                 == [Posting(0, t.accounts[FloatOf(chain, Eth)], -2), Posting(0, a, 2), Posting(1, a, -1),
                 Posting(1, h, 1)]
    ensures Lists(HeldRows(chain, ids), Ahead(t, ids, ids.customer(CUSTOMER), None))
  {
    var c, rows := ids.customer(CUSTOMER), HeldRows(chain, ids);
    var a, h, f := AvailableOf(CUSTOMER, chain, Eth), HoldOf(CUSTOMER, chain, Eth), FloatOf(chain, Eth);
    assert Joins(t, 0, f) && Joins(t, 1, a) && Joins(t, 2, a) && Joins(t, 3, h);
    assert RowOf(t, ids, 2, a) == rows[0] && RowOf(t, ids, 1, a) == rows[1];
    forall r | r in Ahead(t, ids, c, None) ensures r in rows {
      var i: nat, k :| 0 <= i < |t.postings| && Joins(t, i, k) && r == RowOf(t, ids, i, k);
      SameAccount(t, i, k, if i == 0 then f else if i == 3 then h else a);
    }
  }

  /** A walk nobody commits during is undisturbed. */
  lemma {:induction false} QuietWalk(t: Tables, ids: Ids, c: Bytes, size: nat, bound: Option<Key>)
    requires Books.Reconciled(t) && Unique(ids) && size > 0
    ensures Undisturbed(t, ids, c, size, bound, [])
    decreases |Rest(t, ids, c, bound)|
  {
    hide Rest, Books.Reconciled;
    var rest := Rest(t, ids, c, bound);
    if |rest| > size {
      NextRest(t, ids, c, bound, size);
      RunEmpty(t);
      QuietWalk(t, ids, c, size, Some(rest[size - 1].key));
    }
  }

  /**
    A customer pages through its two entries one at a time, and a second hold commits after the
    first page. The walk is no longer the history first seen exactly when that hold is stamped 0,
    or stamped 1 like the entry on the first page and given a smaller id.
   */
  lemma LateCommit(chain: Chain, start: nat, stamp: Time, ids: Ids)
    requires Unique(ids)
    ensures var t, op, c := HeldOnce(chain, start), HoldOne(chain, "l", stamp), ids.customer(CUSTOMER);
            && Reachable(t) && Books.Reconciled(t) && Check(t, op) == None
            && (ItemsOf(Walk(t, ids, c, 1, None, [[op]])) != ItemsOf(HistoryOf(t, ids, c)) <==>
                  stamp == 0 || (stamp == 1 && ids.entry(2) < ids.entry(1)))
  {
    hide HeldOnce, Reachable, Check, Rest, HistoryOf, Walk, Books.Reconciled, Balance, Undisturbed, Undercuts, HoldOne;
    var t, op, c := HeldOnce(chain, start), HoldOne(chain, "l", stamp), ids.customer(CUSTOMER);
    HeldOnceFacts(chain, start);
    HeldOnceRest(chain, start, ids);
    SecondHold(chain, start, stamp, ids);
    WalkIsHistory(t, ids, c, 1, [[op]]);
    OneTurn(t, ids, c, op);
  }

  /** With one commit after the first page, that commit decides. */
  lemma OneTurn(t: Tables, ids: Ids, c: Bytes, op: Op)
    requires Books.Reconciled(t) && Unique(ids) && |Rest(t, ids, c, None)| > 1
    ensures Undisturbed(t, ids, c, 1, None, [[op]]) <==> !Undercuts(t, ids, c, op, Rest(t, ids, c, None)[0].key)
  {
    hide Rest, Books.Reconciled, Undercuts;
    var key := Rest(t, ids, c, None)[0].key;
    OnlyOne(t, ids, c, op, key);
    NextRest(t, ids, c, None, 1);
    RunReconciled(t, [op]);
    QuietWalk(Run(t, [op]), ids, c, 1, Some(key));
  }

  lemma OnlyOne(t: Tables, ids: Ids, c: Bytes, op: Op, bound: Key)
    ensures NoneUndercuts(t, ids, c, [op], bound) <==> !Undercuts(t, ids, c, op, bound)
  {
    var none: seq<Op> := [];
    assert [op][..0] == none;
    hide Undercuts;
    RunEmpty(t);
  }

  lemma SecondHold(chain: Chain, start: nat, stamp: Time, ids: Ids)
    ensures var t, op := HeldOnce(chain, start), HoldOne(chain, "l", stamp);
            && Check(t, op) == None
            && (Undercuts(t, ids, ids.customer(CUSTOMER), op, HeldRows(chain, ids)[0].key) <==>
                  stamp == 0 || (stamp == 1 && ids.entry(2) < ids.entry(1)))
  {
    HeldOnceFacts(chain, start);
    hide HeldOnce, Reachable, Balance;
    assert WithdrawalHold("l") !in Causes(HeldOnce(chain, start).journal);
  }
}
