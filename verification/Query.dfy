/** SELECT .. ORDER BY age LIMIT n: which rows, in which order, ties broken arbitrarily. */
module Query {

  /** ids are the limit oldest of the rows in ages (all of them if there are fewer), oldest first. */
  predicate OldestFirst(ages: map<nat, nat>, ids: seq<nat>, limit: nat) {
    && (forall i :: 0 <= i < |ids| ==> ids[i] in ages)
    && (forall i, j :: 0 <= i < j < |ids| ==> ids[i] != ids[j] && ages[ids[i]] <= ages[ids[j]])
    && |ids| == (if |ages| < limit then |ages| else limit)
    && (forall i, other :: 0 <= i < |ids| && other in ages && other !in ids ==> ages[ids[i]] <= ages[other])
  }

  lemma OldestExists(ages: map<nat, nat>) returns (least: nat)
    requires ages != map[]
    ensures least in ages && forall other :: other in ages ==> ages[least] <= ages[other]
  {
    least :| least in ages;
    var rest := ages - {least};
    assert forall other :: other in ages ==> other == least || other in rest;
    if rest != map[] {
      var best := OldestExists(rest);
      if ages[best] < ages[least] { least := best; }
    }
  }

  /** ids are oldest first and older than rest, and together they are all the rows. */
  ghost predicate Selecting(ages: map<nat, nat>, ids: seq<nat>, rest: map<nat, nat>) {
    && |ids| + |rest| == |ages|
    && (forall k :: k in rest ==> k in ages && rest[k] == ages[k] && k !in ids)
    && (forall k :: k in ages ==> k in rest || k in ids)
    && (forall i :: 0 <= i < |ids| ==> ids[i] in ages && ids[i] !in rest)
    && (forall i, j :: 0 <= i < j < |ids| ==> ids[i] != ids[j] && ages[ids[i]] <= ages[ids[j]])
    && (forall i, k :: 0 <= i < |ids| && k in rest ==> ages[ids[i]] <= ages[k])
  }

  lemma SelectNext(ages: map<nat, nat>, ids: seq<nat>, rest: map<nat, nat>, next: nat)
    requires Selecting(ages, ids, rest) && next in rest && forall other :: other in rest ==> rest[next] <= rest[other]
    ensures Selecting(ages, ids + [next], rest - {next})
  {
    assert rest.Keys == (rest - {next}).Keys + {next};
    assert |rest| == |rest.Keys| && |rest - {next}| == |(rest - {next}).Keys|;
  }

  method SelectOldest(ages: map<nat, nat>, limit: nat) returns (ids: seq<nat>)
    ensures OldestFirst(ages, ids, limit)
  {
    ids := [];
    var rest := ages;
    while |ids| < limit && rest != map[]
      invariant |ids| <= limit && Selecting(ages, ids, rest)
      decreases limit - |ids|
    {
      ghost var least := OldestExists(rest);
      var next :| next in rest && forall other :: other in rest ==> rest[next] <= rest[other];
      SelectNext(ages, ids, rest, next);
      ids := ids + [next];
      rest := rest - {next};
    }
  }

  /** With room for every row, the selection is all of them. */
  lemma NothingLeftOut(ages: map<nat, nat>, ids: seq<nat>, limit: nat)
    requires OldestFirst(ages, ids, limit) && |ages| <= limit
    ensures forall k :: k in ages ==> k in ids
  {
    var picked := set i | 0 <= i < |ids| :: ids[i];
    PickedCount(ids);
    assert picked <= ages.Keys;
    if k :| k in ages && k !in ids {
      assert picked <= ages.Keys - {k};
      SubsetCount(picked, ages.Keys - {k});
    }
  }

  lemma SubsetCount(a: set<nat>, b: set<nat>)
    requires a <= b
    ensures |a| <= |b|
  {
    assert b == a + (b - a);
  }

  lemma {:induction false} PickedCount(ids: seq<nat>)
    requires forall i, j :: 0 <= i < j < |ids| ==> ids[i] != ids[j]
    ensures |set i | 0 <= i < |ids| :: ids[i]| == |ids|
  {
    if ids != [] {
      var init := ids[..|ids| - 1];
      PickedCount(init);
      var last := ids[|ids| - 1];
      assert (set i | 0 <= i < |ids| :: ids[i]) == (set i | 0 <= i < |init| :: init[i]) + {last};
    }
  }
}
