/**
  The idempotency middleware as concurrent requests over one key store: look up, begin, handle,
  insert under the unique key, commit or read the winner back. Exactly one handler transaction per
  key, and one answer.
 */
module Idempotency {
  import opened Domain
  import opened Ledger
  import Interleaving
  import Serial

  datatype Response = Response(status: nat, body: Bytes, contentType: string) {
    predicate Success() { 200 <= status < 300 }
  }

  /** A row of idempotency_keys. */
  datatype Stored = Stored(hash: Bytes, response: Response)

  /** What the middleware itself answers; the client sees 409 for a reused key and 500 for the rest. */
  datatype Problem =
    | LookupFailed
    | KeyReused
    | BeginFailed
    | EmptyHandlerResponse
    | InsertFailed
    | ConflictUnresolved
    | CommitFailed

  datatype Answer = Replay(response: Response) | Refuse(problem: Problem) {
    function Status(): nat {
      match this
      case Replay(response) => response.status
      case Refuse(problem) => if problem == KeyReused then 409 else 500
    }

    predicate Success() { 200 <= Status() < 300 }
  }

  datatype Phase =
    | Arrived
    | Open
    | Ready(response: Response, op: Option<Op>)
    | Holding(response: Response, op: Option<Op>)
    | Conflicted
    | Done(answer: Answer)
    | Dropped

  datatype Request = Request(key: string, hash: Bytes, phase: Phase)

  /** A handler transaction that became durable. */
  datatype Commit = Commit(id: nat, key: string)

  /** history is every transaction committed so far, by handlers or by anybody else; commits those of handlers. */
  datatype State = State(t: Tables, store: map<string, Stored>, requests: map<nat, Request>, commits: seq<Commit>,
      history: seq<Op>)

  datatype Outcome = Reported | Unreported | Lost

  datatype Step =
    | Arrive(id: nat, key: string, hash: Bytes)
    | Look(id: nat, fails: bool)
    | Begin(id: nat, fails: bool)
    | Handle(id: nat, response: Option<Response>, op: Option<Op>)
    | Insert(id: nat, fails: bool)
    | Reread(id: nat, fails: bool)
    | Finish(id: nat, outcome: Outcome)
    | Drop(id: nat)
    | Other(tx: Op)

  /** A stored entry answers a request: replay it, or 409 when the request differs. */
  function ReplayOrConflict(entry: Stored, hash: Bytes): Answer {
    if entry.hash != hash then Refuse(KeyReused) else Replay(entry.response)
  }

  predicate InPhase(s: State, id: nat, phase: Phase) { id in s.requests && s.requests[id].phase == phase }

  function Enter(s: State, id: nat, phase: Phase): State
    requires id in s.requests
  {
    s.(requests := s.requests[id := s.requests[id].(phase := phase)])
  }

  /** Another open transaction has inserted the key: an insert of the same key waits for it. */
  predicate KeyHeld(s: State, key: string) {
    exists id :: id in s.requests && s.requests[id].key == key && s.requests[id].phase.Holding?
  }

  function Committed(s: State, id: nat, answer: Answer): State
    requires id in s.requests && s.requests[id].phase.Holding?
  {
    var r := s.requests[id];
    var op := r.phase.op;
    Enter(s, id, Done(answer)).(
      t := if op.Some? then Apply(s.t, op.value) else s.t,
      store := s.store[r.key := Stored(r.hash, r.phase.response)],
      commits := s.commits + [Commit(id, r.key)],
      history := if op.Some? then s.history + [op.value] else s.history)
  }

  predicate Next(s: State, step: Step, s': State) {
    match step
    case Arrive(id, key, hash) =>
            id !in s.requests && s' == s.(requests := s.requests[id := Request(key, hash, Arrived)])
    case Look(id, fails) =>
      && InPhase(s, id, Arrived)
      && var r := s.requests[id];
      && s' == (if fails then Enter(s, id, Done(Refuse(LookupFailed)))
                else if r.key in s.store then Enter(s, id, Done(ReplayOrConflict(s.store[r.key], r.hash)))
                else Enter(s, id, Open))
    case Begin(id, fails) => InPhase(s, id, Open) && fails && s' == Enter(s, id, Done(Refuse(BeginFailed)))
    case Handle(id, response, op) =>
      && InPhase(s, id, Open)
      && s' == (if response == None then Enter(s, id, Done(Refuse(EmptyHandlerResponse)))
                else if !response.value.Success() then Enter(s, id, Done(Replay(response.value)))
                else Enter(s, id, Ready(response.value, op)))
    case Insert(id, fails) =>
      && id in s.requests && s.requests[id].phase.Ready?
      && var r := s.requests[id];
      && (fails || !KeyHeld(s, r.key))
      && s' == (if fails then Enter(s, id, Done(Refuse(InsertFailed)))
                else if r.key in s.store then Enter(s, id, Conflicted)
                else Enter(s, id, Holding(r.phase.response, r.phase.op)))
    case Reread(id, fails) =>
      && InPhase(s, id, Conflicted)
      && var r := s.requests[id];
      && s' == (if fails || r.key !in s.store then Enter(s, id, Done(Refuse(ConflictUnresolved)))
                else Enter(s, id, Done(ReplayOrConflict(s.store[r.key], r.hash))))
    case Finish(id, outcome) =>
      && id in s.requests && s.requests[id].phase.Holding?
      && var r := s.requests[id];
      // The handler's locks keep its check true until here, as FinishIsCommit says.
      && (!outcome.Lost? && r.phase.op.Some? ==> Check(s.t, r.phase.op.value) == None)
      && s' == (match outcome
                case Reported => Committed(s, id, Replay(r.phase.response))
                case Unreported => Committed(s, id, Refuse(CommitFailed))
                case Lost => Enter(s, id, Done(Refuse(CommitFailed))))
    case Drop(id) => id in s.requests && !s.requests[id].phase.Done? && s' == Enter(s, id, Dropped)
    case Other(op) => s' == s.(t := Apply(s.t, op), history := s.history + [op])
  }

  ghost predicate Moves(s: State, s': State) { exists step :: Next(s, step, s') }

  ghost predicate IsRun(run: seq<State>) {
    && run != [] && run[0].store == map[] && run[0].requests == map[] && run[0].commits == [] && run[0].history == []
    && forall i :: 1 <= i < |run| ==> Moves(run[i - 1], run[i])
  }

  // ---- the invariant ----

  /** What the phase of a request says about the store and the commits. */
  predicate RequestOk(s: State, r: Request) {
    match r.phase
    case Ready(response, _) => response.Success()
    case Holding(response, _) => response.Success() && r.key !in s.store
    case Conflicted => r.key in s.store
    case Done(answer) =>
      answer.Success() ==>
          r.key in s.store && s.store[r.key].hash == r.hash && answer == Replay(s.store[r.key].response)
    case _ => true
  }

  /** A durable transaction's request was answered from it, or could not be told that it was. */
  predicate CommitOk(s: State, c: Commit) {
    && c.id in s.requests && s.requests[c.id].key == c.key && c.key in s.store
    && s.requests[c.id].phase.Done?
    && (s.requests[c.id].phase.answer.Success() || s.requests[c.id].phase.answer == Refuse(CommitFailed))
  }

  predicate HasCommit(s: State, key: string) { exists i :: 0 <= i < |s.commits| && s.commits[i].key == key }

  predicate CommitsId(s: State, id: nat) { exists i :: 0 <= i < |s.commits| && s.commits[i].id == id }

  predicate BothHold(r: Request, r': Request) { r.phase.Holding? && r'.phase.Holding? && r.key == r'.key }

  predicate RequestsOk(s: State) { forall id :: id in s.requests ==> RequestOk(s, s.requests[id]) }

  predicate LogOk(s: State) {
    && (forall i :: 0 <= i < |s.commits| ==> CommitOk(s, s.commits[i]))
    && (forall i, j :: 0 <= i < j < |s.commits| ==> s.commits[i].key != s.commits[j].key)
  }

  predicate StoreLogged(s: State) { forall key :: key in s.store ==> HasCommit(s, key) }

  predicate OneHolds(s: State) {
    forall id, id' | id in s.requests && id' in s.requests && BothHold(s.requests[id], s.requests[id']) :: id == id'
  }

  /** Only 2xx responses are ever stored. */
  predicate StoredSucceed(s: State) { forall key :: key in s.store ==> s.store[key].response.Success() }

  ghost predicate Inv(t: Tables, s: State) {
    s.t == Run(t, s.history) && RequestsOk(s) && LogOk(s) && StoreLogged(s) && OneHolds(s) && StoredSucceed(s)
  }

  /** A step that only moves one request keeps everything but what its new phase must say. */
  lemma EnterKeeps(t: Tables, s: State, id: nat, phase: Phase)
    requires Inv(t, s) && id in s.requests && !s.requests[id].phase.Done?
    requires RequestOk(s, s.requests[id].(phase := phase))
    requires phase.Holding? ==> !KeyHeld(s, s.requests[id].key)
    ensures Inv(t, Enter(s, id, phase))
  {
    hide Run;
    EnterLog(s, id, phase);
    EnterRequests(s, id, phase);
    hide LogOk, RequestsOk, OneHolds, StoreLogged, StoredSucceed;
  }

  lemma EnterLog(s: State, id: nat, phase: Phase)
    requires LogOk(s) && StoreLogged(s) && id in s.requests && !s.requests[id].phase.Done?
    ensures LogOk(Enter(s, id, phase)) && StoreLogged(Enter(s, id, phase))
  {
    var s' := Enter(s, id, phase);
    forall i | 0 <= i < |s'.commits| ensures CommitOk(s', s'.commits[i]) { assert CommitOk(s, s.commits[i]); }
    forall key | key in s'.store ensures HasCommit(s', key) { assert HasCommit(s, key); }
    hide CommitOk, HasCommit;
  }

  lemma EnterRequests(s: State, id: nat, phase: Phase)
    requires RequestsOk(s) && OneHolds(s) && id in s.requests && RequestOk(s, s.requests[id].(phase := phase))
    requires phase.Holding? ==> !KeyHeld(s, s.requests[id].key)
    ensures RequestsOk(Enter(s, id, phase)) && OneHolds(Enter(s, id, phase))
  {
    var s' := Enter(s, id, phase);
    forall x | x in s'.requests
      ensures RequestOk(s', s'.requests[x])
    {
      assert x != id ==> RequestOk(s, s.requests[x]);
    }
    hide RequestOk;
  }

  /** A durable commit: the first and only one for its key. */
  lemma CommittedKeeps(t: Tables, s: State, id: nat, answer: Answer)
    requires Inv(t, s) && id in s.requests && s.requests[id].phase.Holding?
    requires answer == Replay(s.requests[id].phase.response) || answer == Refuse(CommitFailed)
    ensures Inv(t, Committed(s, id, answer))
  {
    var s', r := Committed(s, id, answer), s.requests[id];
    assert RequestOk(s, r);
    if r.phase.op.Some? { assert (s.history + [r.phase.op.value])[..|s.history|] == s.history; }
    assert s'.t == Run(t, s'.history);
    LogGrows(s, id, answer);
    CommittedRequests(s, id, answer);
    CommittedStore(s, id, answer);
    hide Run, Apply, RequestsOk, LogOk, StoreLogged, OneHolds, Committed;
  }

  lemma CommittedRequests(s: State, id: nat, answer: Answer)
    requires RequestsOk(s) && OneHolds(s) && id in s.requests && s.requests[id].phase.Holding?
    requires answer == Replay(s.requests[id].phase.response) || answer == Refuse(CommitFailed)
    ensures RequestsOk(Committed(s, id, answer)) && OneHolds(Committed(s, id, answer))
  {
    hide Apply;
    var s' := Committed(s, id, answer);
    assert RequestOk(s, s.requests[id]);
    forall x | x in s'.requests ensures RequestOk(s', s'.requests[x]) {
      assert RequestOk(s, s.requests[x]) && (x != id ==> !BothHold(s.requests[x], s.requests[id]));
      CommitRequestOk(s, id, answer, x);
    }
    hide RequestOk;
  }

  lemma CommittedStore(s: State, id: nat, answer: Answer)
    requires StoreLogged(s) && id in s.requests && s.requests[id].phase.Holding?
    ensures StoreLogged(Committed(s, id, answer))
  {
    hide Apply;
    var s' := Committed(s, id, answer);
    assert s'.commits[..|s.commits|] == s.commits;
    forall key | key in s'.store ensures HasCommit(s', key) { CommitHas(s, s', key, id); }
  }

  lemma LogGrows(s: State, id: nat, answer: Answer)
    requires id in s.requests && s.requests[id].phase.Holding? && s.requests[id].key !in s.store
    requires answer.Success() || answer == Refuse(CommitFailed)
    requires LogOk(s)
    ensures LogOk(Committed(s, id, answer))
  {
    hide Apply;
    var s' := Committed(s, id, answer);
    forall i | 0 <= i < |s'.commits|
      ensures CommitOk(s', s'.commits[i])
    {
      assert i < |s.commits| ==> CommitOk(s, s.commits[i]);
    }
    forall i, j | 0 <= i < j < |s'.commits|
      ensures s'.commits[i].key != s'.commits[j].key
    {
      assert CommitOk(s, s.commits[i]);
    }
  }

  lemma CommitHas(s: State, s': State, key: string, id: nat)
    requires |s'.commits| == |s.commits| + 1 && s'.commits[..|s.commits|] == s.commits
    requires s'.commits[|s.commits|].key == key || HasCommit(s, key)
    ensures HasCommit(s', key)
  {
    if s'.commits[|s.commits|].key != key {
      var i :| 0 <= i < |s.commits| && s.commits[i].key == key;
      assert s'.commits[i] == s'.commits[..|s.commits|][i];
    }
  }

  lemma CommitRequestOk(s: State, id: nat, answer: Answer, x: nat)
    requires id in s.requests && s.requests[id].phase.Holding? && s.requests[id].phase.response.Success()
    requires answer == Replay(s.requests[id].phase.response) || answer == Refuse(CommitFailed)
    requires x in s.requests && RequestOk(s, s.requests[x]) && RequestOk(s, s.requests[id])
    requires x != id && s.requests[x].phase.Holding? ==> s.requests[x].key != s.requests[id].key
    ensures RequestOk(Committed(s, id, answer), Committed(s, id, answer).requests[x])
  {
    hide Apply;
  }

  lemma NextKeepsInv(t: Tables, s: State, step: Step, s': State)
    requires Inv(t, s) && Next(s, step, s')
    ensures Inv(t, s')
  {
    match step
    case Arrive(id, key, hash) => ArriveKeeps(t, s, id, key, hash);
    case Look(id, fails) => LookKeeps(t, s, step, s');
    case Begin(id, fails) => EnterKeeps(t, s, id, Done(Refuse(BeginFailed)));
    case Handle(id, response, op) =>
      EnterKeeps(t, s, id, if response == None then Done(Refuse(EmptyHandlerResponse))
                           else if !response.value.Success() then Done(Replay(response.value))
                               else Ready(response.value, op));
    case Insert(id, fails) => InsertKeeps(t, s, step, s');
    case Reread(id, fails) => LookKeeps(t, s, step, s');
    case Finish(id, outcome) => FinishKeeps(t, s, step, s');
    case Drop(id) => EnterKeeps(t, s, id, Dropped);
    case Other(op) => OtherKeeps(t, s, op);
  }

  lemma ArriveKeeps(t: Tables, s: State, id: nat, key: string, hash: Bytes)
    requires Inv(t, s) && id !in s.requests
    ensures Inv(t, s.(requests := s.requests[id := Request(key, hash, Arrived)]))
  {
    var s' := s.(requests := s.requests[id := Request(key, hash, Arrived)]);
    hide Run;
    SameLog(s, s');
    forall x | x in s'.requests
      ensures RequestOk(s', s'.requests[x])
    {
      assert x != id ==> RequestOk(s, s.requests[x]);
    }
    hide RequestOk, LogOk, StoreLogged, StoredSucceed;
  }

  /** The log's facts survive when answered requests, the store and the log itself stay. */
  lemma SameLog(s: State, s': State)
    requires LogOk(s) && StoreLogged(s) && s'.commits == s.commits && s'.store == s.store
    requires forall x :: x in s.requests ==> x in s'.requests && s'.requests[x] == s.requests[x]
    requires forall x :: x in s'.requests && x !in s.requests ==> s'.requests[x].phase == Arrived
    ensures LogOk(s') && StoreLogged(s')
  {
    forall i | 0 <= i < |s'.commits| ensures CommitOk(s', s'.commits[i]) { assert CommitOk(s, s.commits[i]); }
    forall key | key in s'.store ensures HasCommit(s', key) { assert HasCommit(s, key); }
    hide CommitOk, HasCommit;
  }

  lemma LookKeeps(t: Tables, s: State, step: Step, s': State)
    requires Inv(t, s) && (step.Look? || step.Reread?) && Next(s, step, s')
    ensures Inv(t, s')
  {
    var r := s.requests[step.id];
    assert RequestOk(s, r);
    hide Inv, Run, Apply;
    var phase := s'.requests[step.id].phase;
    assert RequestOk(s, r.(phase := phase)) && !phase.Holding?;
    assert s' == Enter(s, step.id, phase);
    hide Next, RequestOk;
    EnterKeeps(t, s, step.id, phase);
  }

  lemma InsertKeeps(t: Tables, s: State, step: Step, s': State)
    requires Inv(t, s) && step.Insert? && Next(s, step, s')
    ensures Inv(t, s')
  {
    assert RequestOk(s, s.requests[step.id]);
    hide Inv;
    EnterKeeps(t, s, step.id, s'.requests[step.id].phase);
  }

  lemma FinishKeeps(t: Tables, s: State, step: Step, s': State)
    requires Inv(t, s) && step.Finish? && Next(s, step, s')
    ensures Inv(t, s')
  {
    hide Inv, Committed;
    match step.outcome
    case Reported => CommittedKeeps(t, s, step.id, Replay(s.requests[step.id].phase.response));
    case Unreported => CommittedKeeps(t, s, step.id, Refuse(CommitFailed));
    case Lost => EnterKeeps(t, s, step.id, Done(Refuse(CommitFailed)));
  }

  lemma OtherKeeps(t: Tables, s: State, op: Op)
    requires Inv(t, s)
    ensures Inv(t, s.(t := Apply(s.t, op), history := s.history + [op]))
  {
    var s' := s.(t := Apply(s.t, op), history := s.history + [op]);
    assert (s.history + [op])[..|s.history|] == s.history;
    assert s'.t == Run(t, s'.history);
    hide Apply, Run;
    SameLog(s, s');
    forall x | x in s'.requests ensures RequestOk(s', s'.requests[x]) { assert RequestOk(s, s.requests[x]); }
    hide RequestOk, LogOk, StoreLogged, StoredSucceed;
  }

  lemma {:induction false} AlwaysInv(run: seq<State>, i: nat)
    requires IsRun(run) && i < |run|
    ensures Inv(run[0].t, run[i])
  {
    if i > 0 {
      AlwaysInv(run, i - 1);
      assert Moves(run[i - 1], run[i]);
      var step :| Next(run[i - 1], step, run[i]);
      NextKeepsInv(run[0].t, run[i - 1], step, run[i]);
    }
  }

  // ---- what it gives ----

  /**
    For any interleaving of requests: at most one handler transaction per key is ever durable, and
    one is exactly when the key is stored; every 2xx answer for a key is the one stored response,
    given to a request with the stored hash; and only 2xx responses are stored.
   */
  lemma ExactlyOnce(run: seq<State>, i: nat)
    requires IsRun(run) && i < |run|
    ensures run[i].t == Run(run[0].t, run[i].history)
    ensures forall a, b :: 0 <= a < b < |run[i].commits| ==> run[i].commits[a].key != run[i].commits[b].key
    ensures forall key :: HasCommit(run[i], key) <==> key in run[i].store
    ensures forall id ::
            id in run[i].requests && run[i].requests[id].phase.Done? && run[i].requests[id].phase.answer.Success() ==>
              var r := run[i].requests[id];
              r.key in run[i].store && r.hash == run[i].store[r.key].hash
                  && r.phase.answer == Replay(run[i].store[r.key].response)
    ensures forall key :: key in run[i].store ==> run[i].store[key].response.Success()
  {
    AlwaysInv(run, i);
    var s := run[i];
    forall key ensures HasCommit(s, key) <==> key in s.store {
      if HasCommit(s, key) {
        var c :| 0 <= c < |s.commits| && s.commits[c].key == key;
        assert CommitOk(s, s.commits[c]);
      }
    }
    forall id | id in s.requests ensures RequestOk(s, s.requests[id]) {}
    hide Run;
  }

  /** Once a key is stored, its entry never changes: every later answer replays the same response. */
  lemma {:induction false} StoredForever(run: seq<State>, i: nat, j: nat, key: string)
    requires IsRun(run) && i <= j < |run| && key in run[i].store
    ensures key in run[j].store && run[j].store[key] == run[i].store[key]
  {
    hide Next, Inv;
    if i < j {
      StoredForever(run, i, j - 1, key);
      AlwaysInv(run, j - 1);
      assert Moves(run[j - 1], run[j]);
      var step :| Next(run[j - 1], step, run[j]);
      StoreStep(run[0].t, run[j - 1], step, run[j], key);
    }
  }

  lemma StoreStep(t: Tables, s: State, step: Step, s': State, key: string)
    requires Inv(t, s) && Next(s, step, s') && key in s.store
    ensures key in s'.store && s'.store[key] == s.store[key]
  {
    StoreMoves(s, step, s');
    if s'.store != s.store { assert RequestOk(s, s.requests[step.id]); }
    hide Next;
  }

  /** Only a commit adds to the store, and only its own key. */
  lemma StoreMoves(s: State, step: Step, s': State)
    requires Next(s, step, s')
    ensures s'.store != s.store ==>
              && step.Finish? && step.id in s.requests && s.requests[step.id].phase.Holding?
              && s'.store == s.store[s.requests[step.id].key :=
                  Stored(s.requests[step.id].hash, s.requests[step.id].phase.response)]
  {
    hide Apply;
  }

  /** A stored key answers every later request at once: replay for the same request, 409 for a different one. */
  lemma StoredAnswers(s: State, id: nat, s': State)
    requires Next(s, Look(id, false), s') && s.requests[id].key in s.store
    ensures s'.requests[id].phase.Done?
    ensures var entry := s.store[s.requests[id].key];
            && (entry.hash == s.requests[id].hash ==> s'.requests[id].phase.answer == Replay(entry.response))
            && (entry.hash != s.requests[id].hash <==> s'.requests[id].phase.answer == Refuse(KeyReused))
            && Refuse(KeyReused).Status() == 409
  {
  }

  /** A loser of the race for a key who can read the winner back always gets the winner's answer. */
  lemma WinnerIsThere(run: seq<State>, i: nat, id: nat, s': State)
    requires IsRun(run) && i < |run| && Next(run[i], Reread(id, false), s')
    ensures var r := run[i].requests[id];
            r.key in run[i].store && s'.requests[id].phase == Done(ReplayOrConflict(run[i].store[r.key], r.hash))
  {
    AlwaysInv(run, i);
    assert RequestOk(run[i], run[i].requests[id]);
  }

  // ---- what a failure leaves behind ----

  /** Step k committed the request's transaction and lost the answer on the way back. */
  predicate AnswerLost(run: seq<State>, k: nat, id: nat) {
    1 <= k < |run| && Next(run[k - 1], Finish(id, Unreported), run[k])
  }

  ghost predicate LostBy(run: seq<State>, i: nat, id: nat) { exists k: nat :: k <= i && AnswerLost(run, k, id) }

  /** The request has been answered, with anything but 2xx. */
  predicate Failed(s: State, id: nat) {
    id in s.requests && s.requests[id].phase.Done? && !s.requests[id].phase.answer.Success()
  }

  lemma CommitsStay(s: State, step: Step, s': State, id: nat)
    requires Next(s, step, s')
    ensures CommitsId(s, id) ==> CommitsId(s', id)
    ensures CommitsId(s', id) && !CommitsId(s, id) ==> step == Finish(id, Reported) || step == Finish(id, Unreported)
    ensures step == Finish(id, Unreported) ==> CommitsId(s', id) && Failed(s', id)
    ensures id in s.requests && s.requests[id].phase.Done? ==> id in s'.requests && s'.requests[id] == s.requests[id]
  {
    hide Apply;
    if s'.commits != s.commits {
      assert s'.commits == s.commits + [Commit(step.id, s.requests[step.id].key)];
      assert s'.commits[|s.commits|].id == step.id;
      assert forall c :: 0 <= c < |s.commits| ==> s'.commits[c] == s.commits[c];
    }
  }

  /** A commit is on record exactly when the request was answered from it, or its answer was lost. */
  lemma CommittedOrLost(run: seq<State>, i: nat, id: nat)
    requires IsRun(run) && 1 <= i < |run| && Failed(run[i], id) && CommitsId(run[i], id) && !CommitsId(run[i - 1], id)
    ensures AnswerLost(run, i, id)
  {
    hide Next, Inv, Failed;
    AlwaysInv(run, i - 1);
    assert Moves(run[i - 1], run[i]);
    var step :| Next(run[i - 1], step, run[i]);
    CommitsStay(run[i - 1], step, run[i], id);
    if step == Finish(id, Reported) { ReportedSucceeds(run[0].t, run[i - 1], id, run[i]); }
  }

  lemma ReportedSucceeds(t: Tables, s: State, id: nat, s': State)
    requires Inv(t, s) && Next(s, Finish(id, Reported), s')
    ensures !Failed(s', id)
  {
    assert RequestOk(s, s.requests[id]);
    hide Inv, Apply;
  }

  lemma CommittedIsDone(run: seq<State>, i: nat, id: nat)
    requires IsRun(run) && i < |run| && CommitsId(run[i], id)
    ensures id in run[i].requests && run[i].requests[id].phase.Done?
  {
    AlwaysInv(run, i);
    var c :| 0 <= c < |run[i].commits| && run[i].commits[c].id == id;
    assert CommitOk(run[i], run[i].commits[c]);
  }

  /** A request answered with anything but 2xx has committed something if and only if its commit's answer was lost. */
  lemma {:induction false} FailedCommits(run: seq<State>, i: nat, id: nat)
    requires IsRun(run) && i < |run| && Failed(run[i], id)
    ensures CommitsId(run[i], id) <==> LostBy(run, i, id)
  {
    hide Next, Inv, Failed, AnswerLost;
    if LostBy(run, i, id) { LostCommits(run, i, id); }
    if CommitsId(run[i], id) {
      if i > 0 && CommitsId(run[i - 1], id) {
        CommittedIsDone(run, i - 1, id);
        DoneStays(run, i, id);
        FailedCommits(run, i - 1, id);
      } else if i > 0 {
        CommittedOrLost(run, i, id);
      }
    }
  }

  lemma DoneStays(run: seq<State>, i: nat, id: nat)
    requires IsRun(run) && 1 <= i < |run| && id in run[i - 1].requests && run[i - 1].requests[id].phase.Done?
    ensures Failed(run[i], id) ==> Failed(run[i - 1], id)
  {
    assert Moves(run[i - 1], run[i]);
    var step :| Next(run[i - 1], step, run[i]);
    CommitsStay(run[i - 1], step, run[i], id);
    hide Next;
  }

  lemma {:induction false} LostCommits(run: seq<State>, i: nat, id: nat)
    requires IsRun(run) && i < |run| && LostBy(run, i, id)
    ensures CommitsId(run[i], id)
  {
    hide Next;
    var k: nat :| k <= i && AnswerLost(run, k, id);
    assert Moves(run[i - 1], run[i]);
    var step :| Next(run[i - 1], step, run[i]);
    if k == i {
      CommitsStay(run[i - 1], Finish(id, Unreported), run[i], id);
    } else {
      assert AnswerLost(run, k, id);
      LostCommits(run, i - 1, id);
      CommitsStay(run[i - 1], step, run[i], id);
    }
  }

  /** No request answered with anything but 2xx has committed anything, at any time. */
  ghost predicate FailuresLeaveNothing(run: seq<State>) {
    forall i: nat, id: nat :: i < |run| && Failed(run[i], id) ==> !CommitsId(run[i], id)
  }

  ghost predicate NoAnswerLost(run: seq<State>) { forall k: nat, id: nat :: !AnswerLost(run, k, id) }

  /** Failed requests leave nothing behind in a run if and only if no commit's answer is lost in it. */
  lemma FailuresLeaveNothingIff(run: seq<State>)
    requires IsRun(run)
    ensures FailuresLeaveNothing(run) <==> NoAnswerLost(run)
  {
    hide Next, Inv;
    if NoAnswerLost(run) {
      forall i: nat, id: nat | i < |run| && Failed(run[i], id)
        ensures !CommitsId(run[i], id)
      {
        FailedCommits(run, i, id);
      }
    }
    if FailuresLeaveNothing(run) {
      forall k: nat, id: nat ensures !AnswerLost(run, k, id) {
        if AnswerLost(run, k, id) { CommitsStay(run[k - 1], Finish(id, Unreported), run[k], id); }
      }
    }
  }

  /** One request, up to the commit whose answer is lost. */
  function LostState(t: Tables, op: Op, key: string, hash: Bytes, response: Response, k: nat): State
    requires Check(t, op) == None
  {
    var phase :=
      if k == 1 then Arrived
      else if k == 2 then Open
      else if k == 3 then Ready(response, Some(op))
      else Holding(response, Some(op));
    if k == 0 then State(t, map[], map[], [], [])
    else if k < 5 then State(t, map[], map[0 := Request(key, hash, phase)], [], [])
    else State(Effect(t, op), map[key := Stored(hash, response)],
        map[0 := Request(key, hash, Done(Refuse(CommitFailed)))], [Commit(0, key)], [op])
  }

  function LostStep(op: Op, key: string, hash: Bytes, response: Response, k: nat): Step {
    match k
    case 0 => Arrive(0, key, hash)
    case 1 => Look(0, false)
    case 2 => Handle(0, Some(response), Some(op))
    case 3 => Insert(0, false)
    case _ => Finish(0, Unreported)
  }

  /** On any database, any transaction a handler can commit can be durable and answered 500. */
  lemma LostAnswerRun(t: Tables, op: Op, key: string, hash: Bytes, response: Response) returns (run: seq<State>)
    requires Check(t, op) == None && response.Success()
    ensures IsRun(run) && |run| == 6 && run[0].t == t && run[5].t == Effect(t, op)
    ensures Failed(run[5], 0) && run[5].requests[0].phase.answer.Status() == 500 && CommitsId(run[5], 0)
    ensures key in run[5].store && run[5].store[key] == Stored(hash, response)
  {
    hide Next, Check, Effect, LostState;
    run := seq(6, k requires 0 <= k < 6 => LostState(t, op, key, hash, response, k));
    forall i | 1 <= i < |run| ensures Moves(run[i - 1], run[i]) { LostNext(t, op, key, hash, response, i - 1); }
    LostEnds(t, op, key, hash, response);
  }

  lemma LostNext(t: Tables, op: Op, key: string, hash: Bytes, response: Response, k: nat)
    requires Check(t, op) == None && response.Success() && k < 5
    ensures Next(LostState(t, op, key, hash, response, k), LostStep(op, key, hash, response, k),
            LostState(t, op, key, hash, response, k + 1))
  {
    hide Check, Effect;
  }

  lemma LostEnds(t: Tables, op: Op, key: string, hash: Bytes, response: Response)
    requires Check(t, op) == None
    ensures LostState(t, op, key, hash, response, 0) == State(t, map[], map[], [], [])
    ensures var s := LostState(t, op, key, hash, response, 5);
            && s.t == Effect(t, op) && s.store == map[key := Stored(hash, response)]
            && s.requests == map[0 := Request(key, hash, Done(Refuse(CommitFailed)))] && CommitsId(s, 0)
  {
    hide Check, Effect;
    assert LostState(t, op, key, hash, response, 5).commits[0].id == 0;
  }

  /** Tables, stored keys and the commit log move only together, at a commit, or by somebody else. */
  lemma OnlyCommitsWrite(s: State, step: Step, s': State)
    requires Next(s, step, s') && !step.Other?
    ensures (s'.t, s'.store, s'.history) != (s.t, s.store, s.history) ==>
            step.Finish? && !step.outcome.Lost? && s'.commits == s.commits + [Commit(step.id, s.requests[step.id].key)]
    ensures s'.commits != s.commits ==>
            s'.commits == s.commits + [Commit(step.id, s.requests[step.id].key)] && CommitsId(s', step.id)
  {
    if step.Finish? && !step.outcome.Lost? { assert s'.commits[|s.commits|].id == step.id; }
    hide Apply;
  }

  // ---- the handler's transaction ----

  /**
    The commit of a handler's transaction, with its locks and its key, among the concurrent
    transactions of module Interleaving, is the Finish step here: its check holds at that instant,
    its key is new, and both machines arrive at the same tables and keys.
   */
  lemma FinishIsCommit(run: seq<Interleaving.World>, i: nat, tx: nat, w': Interleaving.World, s: State, id: nat)
    requires Interleaving.IsRun(run) && i < |run| && Interleaving.Next(run[i], Interleaving.Commit(tx), w')
    requires s.t == run[i].t && s.store.Keys == run[i].keys
    requires id in s.requests && s.requests[id].phase.Holding? && s.requests[id].phase.op == Some(run[i].txs[tx].op)
    requires run[i].txs[tx].request == Some(s.requests[id].key)
    ensures s.requests[id].key !in s.store
    ensures var s' := Committed(s, id, Replay(s.requests[id].phase.response));
            Next(s, Finish(id, Reported), s') && s'.t == w'.t && s'.store.Keys == w'.keys
  {
    Serial.CommitsAsChecked(run, i, tx, w');
    Serial.RequestKeyFree(run, i, tx);
    hide Check, Effect, Interleaving.IsRun, Interleaving.Claims;
  }
}
