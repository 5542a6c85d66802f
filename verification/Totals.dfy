/**
  Sums over table rows: the model of SELECT COALESCE(SUM(..), 0), with the facts about appending
  and updating a row that every ledger proof rests on.
 */
module Totals {
  /** The sum of f over the rows of s. */
  function Total<T>(s: seq<T>, f: T -> int): int {
    if s == [] then 0 else Total(s[..|s| - 1], f) + f(s[|s| - 1])
  }

  lemma TotalAppend<T>(s: seq<T>, x: T, f: T -> int)
    ensures Total(s + [x], f) == Total(s, f) + f(x)
  {
    assert (s + [x])[..|s|] == s;
  }

  lemma TotalAppend2<T>(s: seq<T>, x: T, y: T, f: T -> int)
    ensures Total(s + [x, y], f) == Total(s, f) + f(x) + f(y)
  {
    assert s + [x, y] == (s + [x]) + [y];
    TotalAppend(s, x, f);
    TotalAppend(s + [x], y, f);
  }

  lemma {:induction false} TotalUpdate<T>(s: seq<T>, i: nat, x: T, f: T -> int)
    requires i < |s|
    ensures Total(s[i := x], f) == Total(s, f) - f(s[i]) + f(x)
  {
    var last := |s| - 1;
    if i == last {
      assert s[i := x][..last] == s[..last];
    } else {
      assert s[i := x][..last] == s[..last][i := x];
      TotalUpdate(s[..last], i, x, f);
    }
  }

  /** Two tables that agree row by row under f and g have the same sum. */
  lemma {:induction false} TotalSame<T>(s: seq<T>, s': seq<T>, f: T -> int, g: T -> int)
    requires |s| == |s'|
    requires forall i :: 0 <= i < |s| ==> f(s[i]) == g(s'[i])
    ensures Total(s, f) == Total(s', g)
  {
    if s != [] {
      TotalSame(s[..|s| - 1], s'[..|s| - 1], f, g);
    }
  }

  lemma {:induction false} TotalZero<T>(s: seq<T>, f: T -> int)
    requires forall i :: 0 <= i < |s| ==> f(s[i]) == 0
    ensures Total(s, f) == 0
  {
    if s != [] {
      TotalZero(s[..|s| - 1], f);
    }
  }

  /** Sums split: if h is f plus g on every row, its total is the sum of theirs. */
  lemma {:induction false} TotalPlus<T>(s: seq<T>, f: T -> int, g: T -> int, h: T -> int)
    requires forall i :: 0 <= i < |s| ==> h(s[i]) == f(s[i]) + g(s[i])
    ensures Total(s, h) == Total(s, f) + Total(s, g)
  {
    if s != [] {
      TotalPlus(s[..|s| - 1], f, g, h);
    }
  }

  /** The ceiling of n over d. */
  function CeilDiv(n: nat, d: nat): nat
    requires d > 0
  {
    (n + d - 1) / d
  }
}
