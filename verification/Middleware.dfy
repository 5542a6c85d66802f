/**
  The middleware as code: one request at a time against a world in which every other request and
  every other transaction may move between any two of its statements. Each of its runs is a run of
  the machine of module Idempotency, recorded in trace.
 */
module Middleware {
  import opened Domain
  import opened Ledger
  import opened Idempotency

  // ---- buffering a handler's response ----

  /** Buffers what a handler writes; only the first status counts, and a bare write means 200. */
  class ResponseRecorder {
    var status: nat
    var body: Bytes
    var contentType: string
    var wroteHeader: bool

    constructor ()
      ensures !wroteHeader && body == [] && contentType == ""
    {
      status, body, contentType, wroteHeader := 0, [], "", false;
    }

    method WriteHeader(code: nat)
      modifies this
      ensures wroteHeader && body == old(body) && contentType == old(contentType)
      ensures status == if old(wroteHeader) then old(status) else code
    {
      if wroteHeader { return; }
      status := code;
      wroteHeader := true;
    }

    method Write(b: Bytes) returns (n: nat)
      modifies this
      ensures wroteHeader && n == |b| && body == old(body) + b && contentType == old(contentType)
      ensures status == if old(wroteHeader) then old(status) else 200
    {
      if !wroteHeader { WriteHeader(200); }
      body := body + b;
      n := |b|;
    }

    method Result() returns (r: Response)
      ensures r == Response(if wroteHeader then status else 200, body, contentType)
    {
      var code := status;
      if !wroteHeader { code := 200; }
      r := Response(code, body, contentType);
    }
  }

  // ---- requests ----

  datatype Body = Read(bytes: Bytes) | TooLarge | Unreadable

  datatype HttpRequest = HttpRequest(method_: string, path: Bytes, keyHeader: string, body: Body)

  datatype HttpAnswer = PassedThrough | MissingKey | BodyTooLarge | BodyUnreadable | Answered(answer: Answer)

  predicate IsMutatingMethod(m: string) { m == "POST" || m == "PUT" || m == "PATCH" || m == "DELETE" }

  const NEWLINE: byte := 10

  /** sha256 and the byte form of the method name are foreign. */
  datatype Hashing = Hashing(sha: Bytes -> Bytes, text: string -> Bytes)

  function RequestHash(h: Hashing, r: HttpRequest): Bytes
    requires r.body.Read?
  {
    h.sha(h.text(r.method_) + [NEWLINE] + r.path + [NEWLINE] + r.body.bytes)
  }

  /** The request a step belongs to. */
  function Mover(step: Step): Option<nat> {
    match step
    case Arrive(id, _, _) => Some(id)
    case Look(id, _) => Some(id)
    case Begin(id, _) => Some(id)
    case Handle(id, _, _) => Some(id)
    case Insert(id, _) => Some(id)
    case Reread(id, _) => Some(id)
    case Finish(id, _) => Some(id)
    case Drop(id) => Some(id)
    case Other(_) => None
  }

  lemma OtherMoves(s: State, step: Step, s': State, id: nat)
    requires Next(s, step, s') && Mover(step) != Some(id) && id in s.requests
    ensures id in s'.requests && s'.requests[id] == s.requests[id]
  {
    hide Apply;
  }

  lemma RunExtended(trace: seq<State>, step: Step, s': State)
    requires IsRun(trace) && trace != [] && Next(trace[|trace| - 1], step, s')
    ensures IsRun(trace + [s'])
  {
    hide Next;
    var run := trace + [s'];
    forall i | 1 <= i < |run| ensures Moves(run[i - 1], run[i]) {
      if i < |trace| { assert Moves(trace[i - 1], trace[i]); } else { assert Next(run[i - 1], step, run[i]); }
    }
  }

  /** A replay comes from the store, for the request that stored it; 409 means the store holds another request's. */
  predicate FromStore(s: State, r: Request, answer: Answer) {
    match answer
    case Replay(response) => r.key in s.store && s.store[r.key] == Stored(r.hash, response)
    case Refuse(KeyReused) => r.key in s.store && s.store[r.key].hash != r.hash
    case Refuse(problem) => problem == InsertFailed || problem == ConflictUnresolved || problem == CommitFailed
  }

  class Server {
    const hashing: Hashing
    /** The database, the key store, and where every request is. */
    var s: State
    ghost var trace: seq<State>

    ghost predicate Valid()
      reads this
    {
      IsRun(trace) && trace != [] && trace[|trace| - 1] == s
    }

    constructor (hashing: Hashing, t: Tables)
      ensures Valid() && this.hashing == hashing && s == State(t, map[], map[], [], [])
    {
      this.hashing := hashing;
      s := State(t, map[], map[], [], []);
      trace := [State(t, map[], map[], [], [])];
    }

    /** One step of the machine. */
    method Move(step: Step, s': State)
      requires Valid() && Next(s, step, s')
      modifies this
      ensures Valid() && s == s' && trace == old(trace) + [s']
    {
      RunExtended(trace, step, s');
      s := s';
      trace := trace + [s'];
    }

    /** Everybody but request id moves any number of times. */
    method Others(id: nat)
      requires Valid() && id in s.requests
      modifies this
      ensures Valid() && old(trace) <= trace && id in s.requests && s.requests[id] == old(s).requests[id]
    {
      var steps: int := *;
      if steps < 0 { return; }
      hide Next, IsRun;
      for i := 0 to steps
        invariant Valid() && old(trace) <= trace && id in s.requests && s.requests[id] == old(s).requests[id]
      {
        var step: Step, s': State := *, *;
        if Mover(step) != Some(id) && Next(s, step, s') {
          OtherMoves(s, step, s', id);
          Move(step, s');
        }
      }
    }

    /** The request moves to a phase by itself. */
    method Go(id: nat, step: Step, phase: Phase)
      requires Valid() && id in s.requests && Next(s, step, Enter(s, id, phase))
      modifies this
      ensures Valid() && old(trace) <= trace && s == Enter(old(s), id, phase) && InPhase(s, id, phase)
    {
      Move(step, Enter(s, id, phase));
    }

    /** What any handler does with its recorder: some response or none, and a transaction of its own. */
    method RunHandler() returns (response: Option<Response>, op: Option<Op>)
    {
      var rec := new ResponseRecorder();
      var writes, code: nat, chunk: Bytes := *, *, *;
      op := *;
      if writes == 0 { return None, op; }
      if writes == 1 { rec.WriteHeader(code); }
      var n := rec.Write(chunk);
      var captured := rec.Result();
      response := Some(captured);
    }

    /** The first lookup: an answer at once, or the way to the handler. */
    method LookUp(id: nat) returns (answer: Option<Answer>)
      requires Valid() && InPhase(s, id, Arrived)
      modifies this
      ensures Valid() && old(trace) <= trace && id in s.requests
      ensures s.requests[id].key == old(s).requests[id].key && s.requests[id].hash == old(s).requests[id].hash
      ensures answer.Some? ==> InPhase(s, id, Done(answer.value))
      ensures answer.None? ==> InPhase(s, id, Open)
    {
      Others(id);
      var fails: bool := *;
      var r := s.requests[id];
      if fails {
        Go(id, Look(id, true), Done(Refuse(LookupFailed)));
        return Some(Refuse(LookupFailed));
      }
      if r.key in s.store {
        var replay := ReplayOrConflict(s.store[r.key], r.hash);
        Go(id, Look(id, false), Done(replay));
        return Some(replay);
      }
      Go(id, Look(id, false), Open);
      answer := None;
    }

    /** Begin and run the handler: an answer when it fails or does not succeed. */
    method HandleOpen(id: nat) returns (answer: Option<Answer>)
      requires Valid() && InPhase(s, id, Open)
      modifies this
      ensures Valid() && old(trace) <= trace && id in s.requests
      ensures s.requests[id].key == old(s).requests[id].key && s.requests[id].hash == old(s).requests[id].hash
      ensures answer.Some? ==> InPhase(s, id, Done(answer.value))
      ensures answer.None? ==> s.requests[id].phase.Ready?
    {
      var begins: bool := *;
      if !begins {
        Go(id, Begin(id, true), Done(Refuse(BeginFailed)));
        return Some(Refuse(BeginFailed));
      }
      Others(id);
      var response, op := RunHandler();
      if response == None {
        Go(id, Handle(id, None, op), Done(Refuse(EmptyHandlerResponse)));
        return Some(Refuse(EmptyHandlerResponse));
      }
      var captured := response.value;
      if captured.status < 200 || captured.status >= 300 {
        Go(id, Handle(id, response, op), Done(Replay(captured)));
        return Some(Replay(captured));
      }
      Go(id, Handle(id, response, op), Ready(captured, op));
      answer := None;
    }

    /**
      Insert the key and commit, or read the winner back. Whatever is replayed is the stored entry
      of the same request; the request's own transaction is durable only if its own response was
      stored and replayed, or the commit failed to report.
     */
    method InsertAndCommit(id: nat) returns (answer: Answer)
      requires Valid() && id in s.requests && s.requests[id].phase.Ready?
      modifies this
      ensures Valid() && old(trace) <= trace && InPhase(s, id, Done(answer))
      ensures s.requests[id].key == old(s).requests[id].key && s.requests[id].hash == old(s).requests[id].hash
      ensures FromStore(s, s.requests[id], answer)
      ensures CommitsId(s, id) ==>
                || answer == Refuse(CommitFailed)
                || (answer == Replay(old(s).requests[id].phase.response)
                    && s.store[s.requests[id].key] == Stored(s.requests[id].hash, old(s).requests[id].phase.response))
    {
      Others(id);
      var r := s.requests[id];
      var fails: bool := *;
      hide IsRun, CommitsId;
      NotYet(id);
      // Waiting for another open insert of the key ends when that one is done, or as an error.
      if fails || KeyHeld(s, r.key) {
        Go(id, Insert(id, true), Done(Refuse(InsertFailed)));
        return Refuse(InsertFailed);
      }
      if r.key in s.store {
        Go(id, Insert(id, false), Conflicted);
        var failed;
        failed, answer := ReadWinner(id);
        return;
      }
      Go(id, Insert(id, false), Holding(r.phase.response, r.phase.op));
      Others(id);
      answer := CommitHeld(id);
    }

    /** A request not answered yet has committed nothing. */
    ghost method NotYet(id: nat)
      requires Valid() && id in s.requests && !s.requests[id].phase.Done?
      ensures !CommitsId(s, id)
    {
      if CommitsId(s, id) { CommittedIsDone(trace, |trace| - 1, id); }
    }

    method ReadWinner(id: nat) returns (failed: bool, answer: Answer)
      requires Valid() && InPhase(s, id, Conflicted)
      modifies this
      ensures Valid() && old(trace) <= trace && InPhase(s, id, Done(answer)) && !CommitsId(s, id)
      ensures s.requests[id].key == old(s).requests[id].key && s.requests[id].hash == old(s).requests[id].hash
      ensures answer == Refuse(ConflictUnresolved) <==> failed
      ensures !failed ==>
              s.requests[id].key in s.store
              && answer == ReplayOrConflict(s.store[s.requests[id].key], s.requests[id].hash)
    {
      Others(id);
      var r := s.requests[id];
      failed := *;
      hide IsRun;
      NotYet(id);
      if failed {
        answer := Refuse(ConflictUnresolved);
        Go(id, Reread(id, true), Done(answer));
        return;
      }
      ghost var found :=
        if r.key in s.store then ReplayOrConflict(s.store[r.key], r.hash) else Refuse(ConflictUnresolved);
      ghost var s' := Enter(s, id, Done(found));
      WinnerIsThere(trace, |trace| - 1, id, s');
      answer := ReplayOrConflict(s.store[r.key], r.hash);
      Go(id, Reread(id, false), Done(answer));
    }

    method CommitHeld(id: nat) returns (answer: Answer)
      requires Valid() && id in s.requests && s.requests[id].phase.Holding?
      modifies this
      ensures Valid() && old(trace) <= trace && InPhase(s, id, Done(answer))
      ensures s.requests[id].key == old(s).requests[id].key && s.requests[id].hash == old(s).requests[id].hash
      ensures answer == Refuse(CommitFailed) ||
              (answer == Replay(old(s).requests[id].phase.response)
               && s.store == old(s).store[s.requests[id].key :=
                   Stored(s.requests[id].hash, old(s).requests[id].phase.response)])
    {
      var r := s.requests[id];
      var commits, reported: bool := *, *;
      hide Apply, IsRun, Check;
      // The code commits without looking again. The second half of the test is never true there: the
      // handler's locks keep its check true until the commit (CommitsAsChecked, FinishIsCommit).
      if !commits || (r.phase.op.Some? && Check(s.t, r.phase.op.value) != None) {
        answer := Refuse(CommitFailed);
        Go(id, Finish(id, Lost), Done(answer));
        return;
      }
      answer := if reported then Replay(r.phase.response) else Refuse(CommitFailed);
      Move(Finish(id, if reported then Reported else Unreported), Committed(s, id, answer));
    }

    /**
      The middleware. A request without a mutating method passes through; one without a key or with
      an unreadable body is refused; any other is answered by exactly one run of the protocol.
     */
    method ServeHTTP(id: nat, r: HttpRequest) returns (answer: HttpAnswer)
      requires Valid() && id !in s.requests
      modifies this
      ensures Valid() && old(trace) <= trace
      ensures answer == PassedThrough <==> !IsMutatingMethod(r.method_)
      ensures answer == MissingKey <==> IsMutatingMethod(r.method_) && r.keyHeader == ""
      ensures answer == BodyTooLarge <==> IsMutatingMethod(r.method_) && r.keyHeader != "" && r.body == TooLarge
      ensures answer == BodyUnreadable <==> IsMutatingMethod(r.method_) && r.keyHeader != "" && r.body == Unreadable
      ensures !answer.Answered? ==> s == old(s)
      ensures answer.Answered? ==>
              InPhase(s, id, Done(answer.answer)) && s.requests[id].key == r.keyHeader
              && s.requests[id].hash == RequestHash(hashing, r)
      ensures answer.Answered? && answer.answer.Success() ==>
                && r.keyHeader in s.store && s.store[r.keyHeader].hash == RequestHash(hashing, r)
                && answer.answer == Replay(s.store[r.keyHeader].response)
      ensures answer.Answered? && !answer.answer.Success() ==> (CommitsId(s, id) <==> LostBy(trace, |trace| - 1, id))
    {
      if !IsMutatingMethod(r.method_) { return PassedThrough; }
      if r.keyHeader == "" { return MissingKey; }
      match r.body {
        case TooLarge => return BodyTooLarge;
        case Unreadable => return BodyUnreadable;
        case Read(_) =>
      }
      hide Next, IsRun, CommitsId, Run;
      var final := Protocol(id, r.keyHeader, RequestHash(hashing, r));
      ExactlyOnce(trace, |trace| - 1);
      if !final.Success() { FailedCommits(trace, |trace| - 1, id); }
      answer := Answered(final);
    }

    method Protocol(id: nat, key: string, hash: Bytes) returns (answer: Answer)
      requires Valid() && id !in s.requests
      modifies this
      ensures Valid() && old(trace) <= trace && InPhase(s, id, Done(answer)) && s.requests[id].key == key
      ensures s.requests[id].hash == hash
    {
      hide IsRun;
      Move(Arrive(id, key, hash), s.(requests := s.requests[id := Request(key, hash, Arrived)]));
      hide Next;
      var early := LookUp(id);
      if early.Some? { return early.value; }
      early := HandleOpen(id);
      if early.Some? { return early.value; }
      answer := InsertAndCommit(id);
    }
  }
}
