/**
  The internal-transfer walk over one transaction's call trace: the mutable depth-first walk
  records exactly the effective value transfers of the tree, each under the pre-order number of
  its frame, which neither the known addresses nor reverts can shift.
 */
module CallTree {
  import opened Domain

  type EvmAddress = nat

  /** One call of a callTracer trace. */
  datatype Frame = Frame(kind: string, to: Option<EvmAddress>, value: Option<int>, error: string, calls: seq<Frame>)

  /** Everything about a transfer that is not decided by its frame. */
  datatype Place = Place(chain: Chain, txHash: string, block: nat, blockHash: string)

  type Known = map<EvmAddress, string>

  // ---- the reference: paths into the tree ----

  /** A path names a non-root frame: child number, then child number of that child, and so on. */
  predicate IsPath(root: Frame, path: seq<nat>)
    decreases path
  {
    path != [] && path[0] < |root.calls| && (|path| > 1 ==> IsPath(root.calls[path[0]], path[1..]))
  }

  function At(root: Frame, path: seq<nat>): Frame
    requires IsPath(root, path)
    decreases path
  {
    if |path| == 1 then root.calls[path[0]] else At(root.calls[path[0]], path[1..])
  }

  /** The frame or one of its ancestors, the root included, failed. */
  predicate Dead(root: Frame, path: seq<nat>)
    requires IsPath(root, path)
  {
    root.error != "" || exists n :: 1 <= n <= |path| && PrefixIsPath(root, path, n) && At(root, path[..n]).error != ""
  }

  predicate PrefixIsPath(root: Frame, path: seq<nat>, n: nat) { n <= |path| && IsPath(root, path[..n]) }

  /** Depth-first, parents before children: a proper prefix comes first, otherwise the smaller child number. */
  predicate Earlier(p: seq<nat>, q: seq<nat>) {
    if q == [] then false
    else if p == [] then true
    else p[0] < q[0] || (p[0] == q[0] && Earlier(p[1..], q[1..]))
  }

  /** How many frames the first n calls and everything below them make. */
  function Size(calls: seq<Frame>, n: nat): nat
    requires n <= |calls|
    decreases calls, n
  {
    if n == 0 then 0 else Size(calls, n - 1) + 1 + Size(calls[n - 1].calls, |calls[n - 1].calls|)
  }

  /** How many non-root frames come before the one at path. */
  function Rank(calls: seq<Frame>, path: seq<nat>): nat
    decreases path
  {
    if path == [] || path[0] >= |calls| then 0
    else Size(calls, path[0]) + if |path| == 1 then 0 else 1 + Rank(calls[path[0]].calls, path[1..])
  }

  /** A CALL that moves value to a known address. */
  predicate Pays(known: Known, f: Frame) {
    f.kind == "CALL" && f.to.Some? && f.value.Some? && f.to.value in known && f.value.value > 0
  }

  function TransferOf(known: Known, place: Place, f: Frame, rank: nat): Transfer
    requires Pays(known, f)
  {
    Transfer(place.chain, Eth, known[f.to.value], place.txHash, -2 - rank, f.value.value, place.block, place.blockHash)
  }

  /** x is the transfer of the live paying frame at path. */
  predicate IsTransferAt(known: Known, place: Place, root: Frame, path: seq<nat>, x: Transfer) {
    && IsPath(root, path) && !Dead(root, path) && Pays(known, At(root, path))
    && x == TransferOf(known, place, At(root, path), Rank(root.calls, path))
  }

  // ---- the order the walk visits in ----

  /** A frame as the walk meets it: itself, and whether it or anything above it failed. */
  datatype Visit = Visit(frame: Frame, dead: bool)

  /** The non-root frames below the first n calls, parents first; a frame's number is its position here. */
  function Visits(calls: seq<Frame>, n: nat, reverted: bool): (vs: seq<Visit>)
    requires n <= |calls|
    ensures |vs| == Size(calls, n)
    decreases calls, n
  {
    if n == 0 then []
    else
      var f := calls[n - 1];
      var dead := reverted || f.error != "";
      Visits(calls, n - 1, reverted) + [Visit(f, dead)] + Visits(f.calls, |f.calls|, dead)
  }

  function Own(known: Known, place: Place, v: Visit, rank: nat): (own: seq<Transfer>)
    ensures own == [] || (|own| == 1 && own[0].logIndex == -2 - rank)
  {
    if !v.dead && Pays(known, v.frame) then [TransferOf(known, place, v.frame, rank)] else []
  }

  /** The transfers of a stretch of visits that starts at number first. */
  function Collect(known: Known, place: Place, vs: seq<Visit>, first: nat): seq<Transfer> {
    if vs == [] then []
        else Collect(known, place, vs[..|vs| - 1], first) + Own(known, place, vs[|vs| - 1], first + |vs| - 1)
  }

  lemma {:induction false} CollectConcat(known: Known, place: Place, a: seq<Visit>, b: seq<Visit>, first: nat, mid: nat)
    requires mid == first + |a|
    ensures Collect(known, place, a + b, first) == Collect(known, place, a, first) + Collect(known, place, b, mid)
  {
    if b == [] {
      assert a + b == a;
    } else {
      var init := b[..|b| - 1];
      assert (a + b)[..|a + b| - 1] == a + init;
      CollectConcat(known, place, a, init, first, mid);
    }
  }

  lemma CollectOne(known: Known, place: Place, v: Visit, rank: nat)
    ensures Collect(known, place, [v], rank) == Own(known, place, v, rank)
  {
    assert [v][..0] == [];
  }

  /** What one child adds: its own transfer and those below it. */
  function Turn(known: Known, place: Place, child: Frame, reverted: bool, idx: nat): seq<Transfer> {
    var dead := reverted || child.error != "";
    Own(known, place, Visit(child, dead), idx)
        + Collect(known, place, Visits(child.calls, |child.calls|, dead), idx + 1)
  }

  /** What the loop over the first n children has appended. */
  function Gathered(known: Known, place: Place, calls: seq<Frame>, n: nat, reverted: bool, first: nat): seq<Transfer>
    requires n <= |calls|
  {
    Collect(known, place, Visits(calls, n, reverted), first)
  }

  lemma CollectTurn(known: Known, place: Place, calls: seq<Frame>, i: nat, reverted: bool, first: nat, idx: nat)
    requires i < |calls| && idx == first + Size(calls, i)
    ensures Gathered(known, place, calls, i + 1, reverted, first)
            == Gathered(known, place, calls, i, reverted, first) + Turn(known, place, calls[i], reverted, idx)
    ensures first + Size(calls, i + 1) == idx + 1 + Size(calls[i].calls, |calls[i].calls|)
  {
    hide Collect, Own;
    CollectThree(known, place, Visits(calls, i, reverted), Visit(calls[i], reverted || calls[i].error != ""),
                 Visits(calls[i].calls, |calls[i].calls|, reverted || calls[i].error != ""), first, idx);
  }

  lemma CollectThree(known: Known, place: Place, before: seq<Visit>, v: Visit, below: seq<Visit>, first: nat, idx: nat)
    requires idx == first + |before|
    ensures Collect(known, place, before + [v] + below, first)
         == Collect(known, place, before, first) + (Own(known, place, v, idx) + Collect(known, place, below, idx + 1))
  {
    hide Collect, Own;
    Regroup(Collect(known, place, before, first), Own(known, place, v, idx), Collect(known, place, below, idx + 1));
    CollectConcat(known, place, before + [v], below, first, idx + 1);
    CollectConcat(known, place, before, [v], first, idx);
    CollectOne(known, place, v, idx);
  }

  lemma Regroup<T>(a: seq<T>, b: seq<T>, c: seq<T>)
    ensures (a + b) + c == a + (b + c)
  {
  }

  // ---- the walk itself ----

  class Walker {
    const known: Known
    const place: Place
    var dfsIndex: nat
    var transfers: seq<Transfer>

    constructor (known: Known, place: Place, transfers: seq<Transfer>)
      ensures this.known == known && this.place == place && dfsIndex == 0 && this.transfers == transfers
    {
      this.known, this.place, dfsIndex, this.transfers := known, place, 0, transfers;
    }

    /** The match on one frame. */
    method RecordIfPaid(child: Frame, idx: nat, reverted: bool)
      modifies this`transfers
      ensures transfers == old(transfers) + Own(known, place, Visit(child, reverted), idx)
    {
      if !reverted && child.kind == "CALL" && child.to.Some? && child.value.Some? {
        if child.to.value in known {
          if child.value.value > 0 {
            transfers := transfers
              + [Transfer(place.chain, Eth, known[child.to.value], place.txHash, -2 - idx, child.value.value,
                  place.block, place.blockHash)];
          }
        }
      }
    }

    /** One child: its number, its match, and everything below it. */
    method Enter(child: Frame, reverted: bool)
      modifies this
      ensures dfsIndex == old(dfsIndex) + 1 + Size(child.calls, |child.calls|)
      ensures transfers == old(transfers) + Turn(known, place, child, reverted, old(dfsIndex))
      decreases child, 1
    {
      var idx := dfsIndex;
      dfsIndex := dfsIndex + 1;
      var childReverted := reverted || child.error != "";
      hide Collect, Visits, Own, Size;
      RecordIfPaid(child, idx, childReverted);
      Walk(child, childReverted);
      Regroup(old(transfers), Own(known, place, Visit(child, childReverted), idx),
          Collect(known, place, Visits(child.calls, |child.calls|, childReverted), idx + 1));
    }

    method Walk(frame: Frame, reverted: bool)
      modifies this
      ensures dfsIndex == old(dfsIndex) + Size(frame.calls, |frame.calls|)
      ensures transfers == old(transfers) + Gathered(known, place, frame.calls, |frame.calls|, reverted, old(dfsIndex))
      decreases frame, 0
    {
      ghost var start, first := transfers, dfsIndex;
      assert Gathered(known, place, frame.calls, 0, reverted, first) == [] && Size(frame.calls, 0) == 0;
      hide Gathered, Size, Turn;
      for i := 0 to |frame.calls|
        invariant dfsIndex == first + Size(frame.calls, i)
        invariant transfers == start + Gathered(known, place, frame.calls, i, reverted, first)
      {
        CollectTurn(known, place, frame.calls, i, reverted, first, dfsIndex);
        Regroup(start, Gathered(known, place, frame.calls, i, reverted, first),
            Turn(known, place, frame.calls[i], reverted, dfsIndex));
        Enter(frame.calls[i], reverted);
      }
    }
  }

  // ---- the walk finds the effective transfers, and only those ----

  predicate DeadBelow(f: Frame, path: seq<nat>)
    requires IsPath(f, path)
    decreases path
  {
    var child := f.calls[path[0]];
    child.error != "" || (|path| > 1 && DeadBelow(child, path[1..]))
  }

  lemma {:induction false} DeadSplits(f: Frame, path: seq<nat>)
    requires IsPath(f, path)
    ensures Dead(f, path) <==> f.error != "" || DeadBelow(f, path)
    decreases path
  {
    var child, rest := f.calls[path[0]], path[1..];
    assert path[..1] == [path[0]];
    assert PrefixIsPath(f, path, 1) && At(f, path[..1]) == child;
    if |path| > 1 {
      DeadSplits(child, rest);
      forall n: nat | 1 <= n < |path|
        ensures PrefixIsPath(f, path, n + 1) == PrefixIsPath(child, rest, n)
        ensures PrefixIsPath(child, rest, n) ==> At(f, path[..n + 1]) == At(child, rest[..n])
      {
        assert path[..n + 1][1..] == rest[..n];
      }
      if n :| 1 <= n <= |rest| && PrefixIsPath(child, rest, n) && At(child, rest[..n]).error != "" {
        assert PrefixIsPath(f, path, n + 1) && At(f, path[..n + 1]).error != "";
      }
      if n :| 1 <= n <= |path| && PrefixIsPath(f, path, n) && At(f, path[..n]).error != "" {
        if n > 1 { assert PrefixIsPath(child, rest, n - 1) == PrefixIsPath(f, path, n - 1 + 1); }
      }
    }
  }

  lemma {:induction false} VisitsPrefix(calls: seq<Frame>, i: nat, n: nat, reverted: bool)
    requires i < n <= |calls|
    ensures var f := calls[i]; var dead := reverted || f.error != "";
            Visits(calls, i, reverted) + [Visit(f, dead)]
                + Visits(f.calls, |f.calls|, dead) <= Visits(calls, n, reverted)
    decreases n
  {
    if i < n - 1 { VisitsPrefix(calls, i, n - 1, reverted); }
  }

  /** The frame at a path is visited at its rank, and is met dead exactly when something failed on the way. */
  lemma {:induction false} VisitedAtRank(f: Frame, path: seq<nat>, reverted: bool)
    requires IsPath(f, path)
    ensures Rank(f.calls, path) < Size(f.calls, |f.calls|)
    ensures Visits(f.calls, |f.calls|, reverted)[Rank(f.calls, path)]
            == Visit(At(f, path), reverted || DeadBelow(f, path))
    decreases path
  {
    var i := path[0];
    var child := f.calls[i];
    VisitsPrefix(f.calls, i, |f.calls|, reverted);
    if |path| > 1 {
      VisitedAtRank(child, path[1..], reverted || child.error != "");
      BelowIsLater(f, i, reverted, Rank(child.calls, path[1..]));
    }
  }

  lemma BelowIsLater(f: Frame, i: nat, reverted: bool, k: nat)
    requires i < |f.calls| && k < Size(f.calls[i].calls, |f.calls[i].calls|)
    ensures Size(f.calls, i) + 1 + k < Size(f.calls, |f.calls|)
    ensures Visits(f.calls, |f.calls|, reverted)[Size(f.calls, i) + 1 + k]
         == Visits(f.calls[i].calls, |f.calls[i].calls|, reverted || f.calls[i].error != "")[k]
  {
    VisitsPrefix(f.calls, i, |f.calls|, reverted);
    hide Size, Visits;
  }

  lemma {:induction false} Collected(known: Known, place: Place, vs: seq<Visit>, first: nat, x: Transfer)
    ensures x in Collect(known, place, vs, first) <==>
            exists i :: 0 <= i < |vs| && x in Own(known, place, vs[i], first + i)
  {
    if vs != [] {
      var init, last := vs[..|vs| - 1], |vs| - 1;
      Collected(known, place, init, first, x);
      assert forall i :: 0 <= i < |init| ==> init[i] == vs[i];
      assert x in Own(known, place, vs[last], first + last) ==> 0 <= last < |vs|;
    }
  }

  /**
    The walk over a trace records a transfer exactly when it is that of a non-root CALL frame
    with positive value to a known address and no error on itself or any ancestor, under log
    index -2 minus its pre-order number.
   */
  lemma WalkExact(known: Known, place: Place, root: Frame, x: Transfer)
    ensures x in Collect(known, place, Visits(root.calls, |root.calls|, root.error != ""), 0) <==>
            exists path :: IsTransferAt(known, place, root, path, x)
  {
    hide Visits, Collect;
    var vs := Visits(root.calls, |root.calls|, root.error != "");
    Collected(known, place, vs, 0, x);
    if i :| 0 <= i < |vs| && x in Own(known, place, vs[i], 0 + i) {
      var path := EveryRankTaken(root, |root.calls|, i);
      VisitedAtRank(root, path, root.error != "");
      DeadSplits(root, path);
      assert IsTransferAt(known, place, root, path, x);
    }
    if path :| IsTransferAt(known, place, root, path, x) {
      VisitedAtRank(root, path, root.error != "");
      DeadSplits(root, path);
      assert x in Own(known, place, vs[Rank(root.calls, path)], 0 + Rank(root.calls, path));
    }
  }

  // ---- the numbering ----

  lemma {:induction false} SizePrefix(calls: seq<Frame>, i: nat, j: nat)
    requires i < j <= |calls|
    ensures Size(calls, i) + 1 + Size(calls[i].calls, |calls[i].calls|) <= Size(calls, j)
    decreases j
  {
    if i < j - 1 { SizePrefix(calls, i, j - 1); }
  }

  lemma {:induction false} RankBounded(root: Frame, path: seq<nat>)
    requires IsPath(root, path)
    ensures Rank(root.calls, path) < Size(root.calls, |root.calls|)
    decreases path
  {
    SizePrefix(root.calls, path[0], |root.calls|);
    if |path| > 1 { RankBounded(root.calls[path[0]], path[1..]); }
  }

  /** Rank is the position in depth-first order: it agrees with that order on every two frames. */
  lemma {:induction false} RankIsOrder(root: Frame, p: seq<nat>, q: seq<nat>)
    requires IsPath(root, p) && IsPath(root, q)
    ensures Rank(root.calls, p) < Rank(root.calls, q) <==> Earlier(p, q)
    ensures Rank(root.calls, p) == Rank(root.calls, q) <==> p == q
    decreases p
  {
    if p[0] != q[0] {
      var low, high := if p[0] < q[0] then p else q, if p[0] < q[0] then q else p;
      SizePrefix(root.calls, low[0], high[0]);
      if |low| > 1 { RankBounded(root.calls[low[0]], low[1..]); }
    } else {
      assert p == [p[0]] + p[1..] && q == [q[0]] + q[1..];
      if |p| > 1 && |q| > 1 { RankIsOrder(root.calls[p[0]], p[1..], q[1..]); }
    }
  }

  /** No number is skipped: every one below the number of frames is some frame's. */
  lemma {:induction false} EveryRankTaken(root: Frame, n: nat, rank: nat) returns (path: seq<nat>)
    requires n <= |root.calls| && rank < Size(root.calls, n)
    ensures IsPath(root, path) && path[0] < n && Rank(root.calls, path) == rank
    decreases root, n
  {
    var i := n - 1;
    var child, before := root.calls[i], Size(root.calls, i);
    if rank < before {
      path := EveryRankTaken(root, i, rank);
    } else if rank == before {
      path := [i];
    } else {
      var below := EveryRankTaken(child, |child.calls|, rank - before - 1);
      path := [i] + below;
      assert path[1..] == below;
    }
  }

  predicate SameShape(a: Frame, b: Frame) {
    |a.calls| == |b.calls| && forall i :: 0 <= i < |a.calls| ==> SameShape(a.calls[i], b.calls[i])
  }

  lemma {:induction false} SameSize(a: Frame, b: Frame, n: nat)
    requires SameShape(a, b) && n <= |a.calls|
    ensures Size(a.calls, n) == Size(b.calls, n)
    decreases a, n
  {
    if n > 0 {
      SameSize(a, b, n - 1);
      SameSize(a.calls[n - 1], b.calls[n - 1], |a.calls[n - 1].calls|);
    }
  }

  /** A frame's number depends on the shape of the tree alone: not on reverts, values, addresses or who is known. */
  lemma {:induction false} RankIsShape(a: Frame, b: Frame, path: seq<nat>)
    requires SameShape(a, b) && IsPath(a, path)
    ensures IsPath(b, path) && Rank(a.calls, path) == Rank(b.calls, path)
    decreases path
  {
    SameSize(a, b, path[0]);
    if |path| > 1 { RankIsShape(a.calls[path[0]], b.calls[path[0]], path[1..]); }
  }

  /** Log indices strictly descend, and belong to frames numbered from first up to last. */
  predicate Descends(xs: seq<Transfer>, first: int, last: int) {
    && (forall i :: 0 <= i < |xs| ==> first <= -2 - xs[i].logIndex < last)
    && (forall i, j :: 0 <= i < j < |xs| ==> xs[i].logIndex > xs[j].logIndex)
  }

  /** Within one trace the indices strictly descend from -2, so they never meet -1, a real log index, or each other. */
  lemma {:induction false} IndicesDescend(known: Known, place: Place, vs: seq<Visit>, first: nat)
    ensures Descends(Collect(known, place, vs, first), first, first + |vs|)
  {
    if vs != [] {
      var init, rank := vs[..|vs| - 1], first + |vs| - 1;
      IndicesDescend(known, place, init, first);
      DescendsOnce(Collect(known, place, init, first), Own(known, place, vs[|vs| - 1], rank), first, rank);
    }
  }

  lemma DescendsOnce(xs: seq<Transfer>, own: seq<Transfer>, first: int, rank: int)
    requires Descends(xs, first, rank) && first <= rank && (own == [] || (|own| == 1 && own[0].logIndex == -2 - rank))
    ensures Descends(xs + own, first, rank + 1)
  {
  }
}
