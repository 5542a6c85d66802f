/**
  Keyset paging of a customer's history: following the cursors walks the whole history once, in
  order, in as few requests as the page size allows, whatever is inserted above the cursor.
 */
module Paging {
  import opened Domain
  import opened Totals
  import opened Cursor

  /** A row of the journal joined to its posting and the posting's account. */
  datatype Row = Row(owner: Option<Bytes>, available: bool, key: Key, cause: string, amount: int, chain: Chain,
      asset: Asset)

  datatype Item = Item(id: nat, cause: string, amount: int, chain: Chain, asset: Asset, status: string, createdAt: Time)

  datatype Listing = CustomerMissing | InvalidCursor | Page(items: seq<Item>, next: string)

  const DEPOSIT_CREDIT := "deposit_credit"

  function TransactionStatus(cause: string): string { if cause == DEPOSIT_CREDIT then "credited" else "completed" }

  function ItemOf(r: Row): Item {
    Item(r.key.entry, r.cause, r.amount, r.chain, r.asset, TransactionStatus(r.cause), r.key.at)
  }

  /** (created_at, entry, posting) in SQL row comparison. */
  predicate Earlier(a: Key, b: Key) {
    a.at < b.at || (a.at == b.at && (a.entry < b.entry || (a.entry == b.entry && a.posting < b.posting)))
  }

  /** The rows a customer sees: those on its own available accounts. */
  function Visible(table: set<Row>, c: Bytes): set<Row> { set r | r in table && r.owner == Some(c) && r.available }

  /** The rows strictly below a cursor. */
  function Below(rows: set<Row>, bound: Option<Key>): set<Row> {
    set r | r in rows && (bound == None || Earlier(r.key, bound.value))
  }

  /** posting ids are unique, so keys are. */
  predicate KeysDistinct(rows: set<Row>) { forall r, r' :: r in rows && r' in rows && r.key == r'.key ==> r == r' }

  /** rows in strictly descending order of key. */
  ghost predicate Lists(s: seq<Row>, rows: set<Row>) {
    (forall i, j :: 0 <= i < j < |s| ==> Earlier(s[j].key, s[i].key)) && (forall r :: r in s <==> r in rows)
  }

  // ---- the order ----

  lemma {:induction false} TopExists(rows: set<Row>) returns (top: Row)
    requires rows != {} && KeysDistinct(rows)
    ensures top in rows && forall r :: r in rows && r != top ==> Earlier(r.key, top.key)
  {
    top :| top in rows;
    var rest := rows - {top};
    if rest != {} {
      var other := TopExists(rest);
      if Earlier(top.key, other.key) { top := other; }
    }
  }

  lemma ListSize(s: seq<Row>, rows: set<Row>)
    requires Lists(s, rows)
    ensures |s| == |rows|
  {
    DistinctSize(s);
    assert (set r | r in s) == rows;
  }

  lemma {:induction false} DistinctSize(s: seq<Row>)
    requires forall i, j :: 0 <= i < j < |s| ==> s[i] != s[j]
    ensures |set r | r in s| == |s|
  {
    if s != [] {
      var init, last := s[..|s| - 1], s[|s| - 1];
      DistinctSize(init);
      assert (set r | r in s) == (set r | r in init) + {last};
      assert last !in init;
    }
  }

  /** There is only one descending list of a set of rows. */
  lemma {:induction false} OneList(s: seq<Row>, s': seq<Row>, rows: set<Row>)
    requires Lists(s, rows) && Lists(s', rows)
    ensures s == s'
  {
    ListSize(s, rows);
    ListSize(s', rows);
    if s != [] {
      assert s[0] in s' && s'[0] in s;
      assert s[0] == s'[0];
      TailLists(s, rows);
      TailLists(s', rows);
      OneList(s[1..], s'[1..], rows - {s[0]});
    }
  }

  lemma TailLists(s: seq<Row>, rows: set<Row>)
    requires Lists(s, rows) && s != []
    ensures Lists(s[1..], rows - {s[0]})
  {
    forall r | r in rows - {s[0]} ensures r in s[1..] {
      var i :| 0 <= i < |s| && s[i] == r;
      assert s[1..][i - 1] == r;
    }
  }

  /** What lies below the n-th row of the list is the rest of the list. */
  lemma BelowIsRest(s: seq<Row>, rows: set<Row>, n: nat)
    requires Lists(s, rows) && 0 < n <= |s|
    ensures Lists(s[n..], Below(rows, Some(s[n - 1].key)))
  {
    forall r | r in Below(rows, Some(s[n - 1].key)) ensures r in s[n..] {
      var i :| 0 <= i < |s| && s[i] == r;
      assert i >= n;
      assert s[n..][i - n] == r;
    }
  }

  lemma {:induction false} ListExists(rows: set<Row>) returns (s: seq<Row>)
    requires KeysDistinct(rows)
    ensures Lists(s, rows)
  {
    if rows == {} { return []; }
    var top := TopExists(rows);
    var rest := ListExists(rows - {top});
    s := [top] + rest;
    forall i, j | 0 <= i < j < |s| ensures Earlier(s[j].key, s[i].key) {
      assert s[j] in rest;
    }
  }

  lemma SomeList(rows: set<Row>)
    requires KeysDistinct(rows)
    ensures exists s :: Lists(s, rows)
  {
    var s := ListExists(rows);
  }

  /** The rows in descending order of key; by OneList there is no other such list. */
  ghost function Newest(rows: set<Row>): (s: seq<Row>)
    requires KeysDistinct(rows)
    ensures Lists(s, rows)
  {
    SomeList(rows);
    var s :| Lists(s, rows);
    s
  }

  // ---- one page ----

  /** ORDER BY created_at DESC, entry DESC, posting DESC LIMIT limit. */
  method SelectNewest(rows: set<Row>, limit: nat) returns (s: seq<Row>)
    requires KeysDistinct(rows)
    ensures s == Newest(rows)[..if |Newest(rows)| < limit then |Newest(rows)| else limit]
  {
    ghost var all := Newest(rows);
    s := [];
    var rest := rows;
    assert all[0..] == all;
    hide Lists, Earlier, Newest;
    while |s| < limit && rest != {}
      invariant |s| <= |all| && |s| <= limit && s == all[..|s|] && Lists(all[|s|..], rest)
      decreases limit - |s|
    {
      NextTop(all, |s|, rest);
      var top :| top in rest && forall r :: r in rest && r != top ==> Earlier(r.key, top.key);
      rest := rest - {top};
      s := s + [top];
    }
    if rest == {} { NothingListed(all[|s|..], rest); }
  }

  /** The newest remaining row is the next of the list. */
  lemma NextTop(all: seq<Row>, n: nat, rest: set<Row>)
    requires n <= |all| && Lists(all[n..], rest) && rest != {}
    ensures n < |all| && all[n] in rest && Lists(all[n + 1..], rest - {all[n]})
    ensures forall r :: r in rest && r != all[n] ==> Earlier(r.key, all[n].key)
    ensures forall top :: top in rest && (forall r :: r in rest && r != top ==> Earlier(r.key, top.key)) ==>
            top == all[n]
  {
    var s := all[n..];
    ListSize(s, rest);
    assert s[0] == all[n] && s[1..] == all[n + 1..];
    TailLists(s, rest);
    forall r | r in rest && r != all[n] ensures Earlier(r.key, all[n].key) {
      var i :| 0 <= i < |s| && s[i] == r;
    }
  }

  lemma NothingListed(s: seq<Row>, rows: set<Row>)
    requires Lists(s, rows) && rows == {}
    ensures s == []
  {
    ListSize(s, rows);
  }

  function ItemsOf(rows: seq<Row>): (items: seq<Item>)
    ensures |items| == |rows|
  {
    seq(|rows|, i requires 0 <= i < |rows| => ItemOf(rows[i]))
  }

  /** The page of a descending list: its first pageSize rows, and a cursor on the last of them if more follow. */
  function PageOf(k: Codec, c: Bytes, pageSize: nat, all: seq<Row>): Listing
    requires pageSize > 0
  {
    if |all| > pageSize then Page(ItemsOf(all[..pageSize]), EncodeCursor(k, c, all[pageSize - 1].key))
    else Page(ItemsOf(all), "")
  }

  lemma BelowDistinct(table: set<Row>, c: Bytes, bound: Option<Key>)
    requires KeysDistinct(table)
    ensures KeysDistinct(Below(Visible(table, c), bound))
  {
  }

  method ListCustomerTransactions(k: Codec, table: set<Row>, customers: set<Bytes>, c: Bytes, pageSize: nat,
          cursor: string)
    returns (r: Listing)
    requires pageSize > 0 && KeysDistinct(table)
    ensures c !in customers ==> r == CustomerMissing
    ensures c in customers && cursor != "" && DecodeCursor(k, c, cursor) == None ==> r == InvalidCursor
    ensures c in customers && (cursor == "" || DecodeCursor(k, c, cursor).Some?) ==>
              var rows := Below(Visible(table, c), if cursor == "" then None else DecodeCursor(k, c, cursor));
              KeysDistinct(rows) && r == PageOf(k, c, pageSize, Newest(rows))
  {
    hide DecodeCursor, EncodeCursor, Lists, Below, Visible, ItemOf, Newest;
    if c !in customers { return CustomerMissing; }
    var bound: Option<Key> := None;
    if cursor != "" {
      bound := DecodeCursor(k, c, cursor);
      if bound == None { return InvalidCursor; }
    }
    BelowDistinct(table, c, bound);
    var paged := SelectNewest(Below(Visible(table, c), bound), pageSize + 1);
    var next := "";
    if |paged| > pageSize {
      var last := paged[pageSize - 1];
      next := EncodeCursor(k, c, last.key);
      paged := paged[..pageSize];
    }
    var transactions := [];
    for i := 0 to |paged|
      invariant transactions == ItemsOf(paged[..i])
    {
      transactions := transactions + [ItemOf(paged[i])];
    }
    assert paged[..|paged|] == paged;
    r := Page(transactions, next);
  }

  // ---- walking the pages ----

  /** Rows inserted at or above a cursor leave what lies below it unchanged. */
  lemma InsertAbove(table: set<Row>, arrived: set<Row>, c: Bytes, bound: Key)
    requires forall r :: r in arrived ==> !Earlier(r.key, bound)
    ensures Below(Visible(table + arrived, c), Some(bound)) == Below(Visible(table, c), Some(bound))
  {
  }

  lemma PageStep(k: Codec, c: Bytes, pageSize: nat, all: seq<Row>, done: nat)
    requires pageSize > 0 && done <= |all|
    ensures var page := PageOf(k, c, pageSize, all[done..]);
            && page.Page? && (page.next == "" <==> |all| - done <= pageSize)
            && (page.next == "" ==> ItemsOf(all[..done]) + page.items == ItemsOf(all))
            && (page.next != "" ==>
                  && ItemsOf(all[..done]) + page.items == ItemsOf(all[..done + pageSize])
                  && page.next == EncodeCursor(k, c, all[done + pageSize - 1].key)
                  && all[done..][pageSize..] == all[done + pageSize..]
                      && all[done..][pageSize - 1] == all[done + pageSize - 1])
  {
    var rest := all[done..];
    if |rest| > pageSize {
      var key := rest[pageSize - 1].key;
      assert EncodeCursor(k, c, key) != "";
    }
    hide EncodeCursor;
  }

  /** So many requests have each taken a full page. */
  predicate FullPages(done: nat, requests: nat, pageSize: nat) { done == requests * pageSize }

  lemma OneMore(done: nat, requests: nat, pageSize: nat, next: nat, more: nat)
    requires FullPages(done, requests, pageSize) && next == done + pageSize && more == requests + 1
    ensures FullPages(next, more, pageSize)
  {
  }

  /** Requests that each took a full page, and one that took what was left. */
  lemma Requests(n: nat, pageSize: nat, done: nat, requests: nat)
    requires pageSize > 0 && FullPages(done, requests, pageSize)
    requires done <= n <= done + pageSize && (done == 0 || done < n)
    ensures requests + 1 == if n == 0 then 1 else CeilDiv(n, pageSize)
  {
    assert (requests + 1) * pageSize == requests * pageSize + pageSize;
    if n == 0 {
      if requests >= 1 { AtLeast(pageSize, 1, requests); }
    } else {
      Quotient(n + pageSize - 1, pageSize, requests + 1);
    }
  }

  lemma AtLeast(d: nat, a: nat, b: nat)
    requires a <= b
    ensures a * d <= b * d
  {
    assert b * d == a * d + (b - a) * d;
  }

  lemma Quotient(n: nat, d: nat, q: nat)
    requires d > 0 && q * d <= n < q * d + d
    ensures n / d == q
  {
    var p := n / d;
    assert n == p * d + n % d;
    if p + 1 <= q { AtLeast(d, p + 1, q); }
    if q + 1 <= p { AtLeast(d, q + 1, p); }
    assert (p + 1) * d == p * d + d && (q + 1) * d == q * d + d;
  }

  /** Moving the cursor a page down the list. */
  lemma Advance(all: seq<Row>, rows: set<Row>, bound: Option<Key>, done: nat, pageSize: nat)
    requires pageSize > 0 && done + pageSize <= |all| && Lists(all[done..], Below(rows, bound))
    ensures Lists(all[done + pageSize..], Below(rows, Some(all[done + pageSize - 1].key)))
  {
    var rest := all[done..];
    var last := rest[pageSize - 1];
    assert last in rest && last == all[done + pageSize - 1] && rest[pageSize..] == all[done + pageSize..];
    BelowIsRest(rest, Below(rows, bound), pageSize);
    BelowTwice(rows, bound, last.key);
  }

  /** Below a later row of the list is below the earlier cursor too. */
  lemma BelowTwice(rows: set<Row>, bound: Option<Key>, key: Key)
    requires bound == None || key == bound.value || Earlier(key, bound.value)
    ensures Below(Below(rows, bound), Some(key)) == Below(rows, Some(key))
  {
  }

  /** A reader of the list all has had its first done rows, holds cursor, and the rows below it are the rest. */
  ghost predicate At(k: Codec, c: Bytes, all: seq<Row>, rows: set<Row>, done: nat, bound: Option<Key>, cursor: string) {
    && done <= |all| && (done == 0 || done < |all|)
    && bound == (if done == 0 then None else Some(all[done - 1].key))
    && cursor == (if done == 0 then "" else EncodeCursor(k, c, all[done - 1].key))
    && (done > 0 ==> cursor != "" && DecodeCursor(k, c, cursor) == bound)
    && Lists(all[done..], Below(rows, bound))
  }

  lemma NextAt(k: Codec, c: Bytes, all: seq<Row>, rows: set<Row>, done: nat, bound: Option<Key>, cursor: string,
          pageSize: nat)
    requires At(k, c, all, rows, done, bound, cursor) && Faithful(k) && Plain(c) && pageSize > 0
    requires done + pageSize < |all|
    ensures var key := all[done + pageSize - 1].key;
            At(k, c, all, rows, done + pageSize, Some(key), EncodeCursor(k, c, key))
  {
    var key := all[done + pageSize - 1].key;
    Advance(all, rows, bound, done, pageSize);
    CursorRoundTrip(k, c, key, c);
    assert EncodeCursor(k, c, key) != "";
    hide EncodeCursor, DecodeCursor, Lists, Below;
  }

  lemma StartAt(k: Codec, c: Bytes, all: seq<Row>, rows: set<Row>, pageSize: nat)
    requires Lists(all, rows)
    ensures At(k, c, all, rows, 0, None, "") && FullPages(0, 0, pageSize) && ItemsOf(all[..0]) == []
  {
    assert Below(rows, None) == rows && all[0..] == all;
  }

  lemma RequestsFor(rows: set<Row>, all: seq<Row>, pageSize: nat, done: nat, requests: nat)
    requires Lists(all, rows) && pageSize > 0 && FullPages(done, requests, pageSize)
    requires done <= |all| <= done + pageSize && (done == 0 || done < |all|)
    ensures requests + 1 == if rows == {} then 1 else CeilDiv(|rows|, pageSize)
  {
    ListSize(all, rows);
    Requests(|all|, pageSize, done, requests);
  }

  /** One request of the walk. */
  method TakePage(k: Codec, table: set<Row>, customers: set<Bytes>, c: Bytes, pageSize: nat, cursor: string,
      ghost all: seq<Row>, ghost done: nat, ghost bound: Option<Key>)
    returns (page: Listing, ghost next: nat)
    requires Faithful(k) && Plain(c) && c in customers && pageSize > 0 && KeysDistinct(table)
    requires At(k, c, all, Visible(table, c), done, bound, cursor)
    ensures page.Page? && done <= |all| && (done == 0 || done < |all|)
    ensures page.next == "" ==> |all| <= done + pageSize && ItemsOf(all[..done]) + page.items == ItemsOf(all)
    ensures page.next != "" ==>
              && next == done + pageSize < |all| && ItemsOf(all[..done]) + page.items == ItemsOf(all[..next])
              && At(k, c, all, Visible(table, c), next, Some(all[next - 1].key), page.next)
  {
    next := done + pageSize;
    page := ListCustomerTransactions(k, table, customers, c, pageSize, cursor);
    OneList(Newest(Below(Visible(table, c), bound)), all[done..], Below(Visible(table, c), bound));
    PageStep(k, c, pageSize, all, done);
    hide At, EncodeCursor, DecodeCursor, Lists, Below, Visible, PageOf, ItemsOf;
    if page.next != "" { NextAt(k, c, all, Visible(table, c), done, bound, cursor, pageSize); }
  }

  /** Rows that arrive between two requests, none of them below the cursor. */
  method Arrivals(k: Codec, table: set<Row>, c: Bytes, cursor: string, ghost all: seq<Row>, ghost done: nat,
      ghost bound: Option<Key>) returns (now: set<Row>)
    requires KeysDistinct(table) && At(k, c, all, Visible(table, c), done, bound, cursor)
    ensures KeysDistinct(now) && table <= now && At(k, c, all, Visible(now, c), done, bound, cursor)
  {
    now := table;
    var arrived: set<Row> := *;
    var last := DecodeCursor(k, c, cursor);
    if cursor != "" && last.Some? && KeysDistinct(table + arrived)
       && (forall r :: r in arrived ==> !Earlier(r.key, last.value)) {
      InsertAbove(table, arrived, c, last.value);
      now := table + arrived;
    }
  }

  /**
    Following next cursors from the first page gives the customer's whole history, as it stood at
    the first request, exactly once and in strictly descending order, in the ceiling of n over the
    page size requests (one when there is nothing), whatever is inserted above the cursor between
    requests.
   */
  method WalkPages(k: Codec, table: set<Row>, customers: set<Bytes>, c: Bytes, pageSize: nat)
    returns (items: seq<Item>, requests: nat)
    requires Faithful(k) && Plain(c) && c in customers && pageSize > 0 && KeysDistinct(table)
    ensures items == ItemsOf(Newest(Visible(table, c)))
    ensures requests == if Visible(table, c) == {} then 1 else CeilDiv(|Visible(table, c)|, pageSize)
  {
    ghost var all := Newest(Visible(table, c));
    var now, cursor := table, "";
    ghost var bound: Option<Key> := None;
    ghost var done := 0;
    items, requests := [], 0;
    StartAt(k, c, all, Visible(table, c), pageSize);
    hide EncodeCursor, Faithful, Lists, Visible, FullPages, ItemsOf, CeilDiv, At, Plain, KeysDistinct, Newest;
    while true
      invariant done <= |all| && KeysDistinct(now) && At(k, c, all, Visible(now, c), done, bound, cursor)
      invariant items == ItemsOf(all[..done]) && FullPages(done, requests, pageSize)
      decreases |all| - done
    {
      var page, next := TakePage(k, now, customers, c, pageSize, cursor, all, done, bound);
      items := items + page.items;
      if page.next == "" {
        RequestsFor(Visible(table, c), all, pageSize, done, requests);
        requests := requests + 1;
        return;
      }
      ghost var sofar := requests;
      requests := requests + 1;
      OneMore(done, sofar, pageSize, next, requests);
      cursor, done := page.next, next;
      bound := Some(all[done - 1].key);
      now := Arrivals(k, now, c, cursor, all, done, bound);
    }
  }
}
