/**
  Row locks and unique-key waits as one resource order: whoever waits, waits for something ranked
  above everything it holds, so waiting never goes round in a circle. Crediting is the exception:
  its foreign-key locks follow block order, and module CreditLocks says what comes of that.
 */
module LockOrder {
  import opened Domain

  /** What a transaction can wait for: rows locked FOR UPDATE, and keys another open transaction has inserted. */
  datatype Resource =
    | WithdrawalRow(w: WithdrawalId)
    | NonceRow(chain: Chain)
    | AccountRow(account: AccountId)
    | CauseKey(cause: Cause)
    | RequestKey(key: string)

  datatype Mode = Exclusive | Shared

  datatype Lock = Lock(on: Resource, mode: Mode)

  predicate Conflicts(a: Lock, b: Lock) { a.on == b.on && (a.mode == Exclusive || b.mode == Exclusive) }

  function Grade(r: Resource): nat {
    match r
    case WithdrawalRow(_) => 0
    case NonceRow(_) => 1
    case AccountRow(_) => 2
    case CauseKey(_) => 3
    case RequestKey(_) => 4
  }

  /** Withdrawal row, nonce row, accounts in ascending id, journal key, idempotency key. */
  predicate Precedes(a: Resource, b: Resource) {
    Grade(a) < Grade(b) || (a.AccountRow? && b.AccountRow? && a.account < b.account)
  }

  predicate Ordered(plan: seq<Lock>) { forall i, j :: 0 <= i < j < |plan| ==> Precedes(plan[i].on, plan[j].on) }

  /** An open transaction: the locks it takes in order, and how many it has. */
  datatype Claimant = Claimant(plan: seq<Lock>, got: nat) {
    predicate Valid() { got <= |plan| }

    predicate Done() { got == |plan| }

    predicate Blocks(lock: Lock)
      requires Valid()
    {
      exists k :: 0 <= k < got && Conflicts(plan[k], lock)
    }
  }

  /** Who claims: a caller's transaction, or the crediting of one chain's poll. */
  datatype Party = Caller(id: nat) | Crediter(chain: Chain)

  type Claimants = map<Party, Claimant>

  predicate AllValid(m: Claimants) { forall i :: i in m ==> m[i].Valid() }

  predicate WaitsFor(m: Claimants, i: Party, j: Party)
    requires AllValid(m)
  {
    i in m && j in m && i != j && !m[i].Done() && m[j].Blocks(m[i].plan[m[i].got])
  }

  /** i's next lock is free. */
  predicate CanTake(m: Claimants, i: Party)
    requires AllValid(m) && i in m
  {
    !m[i].Done() && forall j :: j in m && j != i ==> !m[j].Blocks(m[i].plan[m[i].got])
  }

  /** No two parties hold conflicting locks. */
  predicate Compatible(m: Claimants)
    requires AllValid(m)
  {
    forall p, q, i, j :: p in m && q in m && p != q && 0 <= i < m[p].got && 0 <= j < m[q].got ==>
            !Conflicts(m[p].plan[i], m[q].plan[j])
  }

  ghost predicate AllOrdered(m: Claimants) { AllValid(m) && forall i :: i in m ==> Ordered(m[i].plan) }

  function NextLock(m: Claimants, i: Party): Resource
    requires AllValid(m) && i in m && !m[i].Done()
  {
    m[i].plan[m[i].got].on
  }

  /** Waiting climbs: what the blocker itself waits for ranks above what it holds. */
  lemma WaitsClimb(m: Claimants, i: Party, j: Party)
    requires AllValid(m) && WaitsFor(m, i, j) && !m[j].Done() && Ordered(m[j].plan)
    ensures Precedes(NextLock(m, i), NextLock(m, j))
  {
    var k :| 0 <= k < m[j].got && Conflicts(m[j].plan[k], m[i].plan[m[i].got]);
  }

  predicate WaitChain(m: Claimants, path: seq<Party>)
    requires AllValid(m)
  {
    |path| >= 2 && forall k :: 1 <= k < |path| ==> WaitsFor(m, path[k - 1], path[k])
  }

  lemma {:induction false} ChainClimbs(m: Claimants, path: seq<Party>)
    requires AllOrdered(m) && WaitChain(m, path)
    requires path[|path| - 1] in m && !m[path[|path| - 1]].Done()
    ensures path[0] in m && !m[path[0]].Done()
    ensures Precedes(NextLock(m, path[0]), NextLock(m, path[|path| - 1]))
  {
    var last := |path| - 1;
    assert WaitsFor(m, path[last - 1], path[last]);
    WaitsClimb(m, path[last - 1], path[last]);
    if last > 1 {
      ChainClimbs(m, path[..last]);
    }
  }

  /** The wait-for relation has no cycle. */
  lemma WaitsAcyclic(m: Claimants, path: seq<Party>)
    requires AllOrdered(m) && WaitChain(m, path)
    ensures path[0] != path[|path| - 1]
  {
    assert WaitsFor(m, path[1 - 1], path[1]);
    if path[0] == path[|path| - 1] { ChainClimbs(m, path); }
  }

  lemma {:induction false} Highest(m: Claimants, among: set<Party>) returns (top: Party)
    requires AllValid(m) && among != {} && forall i :: i in among ==> i in m && !m[i].Done()
    ensures top in among && forall i :: i in among ==> !Precedes(NextLock(m, top), NextLock(m, i))
  {
    var x :| x in among;
    if among == {x} { return x; }
    top := Highest(m, among - {x});
    if Precedes(NextLock(m, top), NextLock(m, x)) { top := x; }
  }

  /** Among any set of open transactions with ordered locks, one has all its locks or can take its next. */
  lemma SomeoneAdvances(m: Claimants) returns (i: Party)
    requires AllOrdered(m) && m != map[]
    ensures i in m && (m[i].Done() || CanTake(m, i))
  {
    if done :| done in m && m[done].Done() { return done; }
    i :| i in m;
    i := Highest(m, m.Keys);
    forall j | j in m && j != i ensures !m[j].Blocks(m[i].plan[m[i].got]) {
      if m[j].Blocks(m[i].plan[m[i].got]) { WaitsClimb(m, i, j); }
    }
  }
}
