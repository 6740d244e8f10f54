/**
 transaction.go: one operation in one transaction, and what a whole history of requests leaves
 behind. The database driver and the operation choose their outcomes freely; the durable state
 has an arbitrary type.
 */
module Transaction {

  import opened Wrappers

  datatype Error =
    | NotConfigured
    | OperationRequired
    | RunnerRequired
    | Cause(code: int)
    | BeginFailed(cause: Error)
    | CommitFailed(cause: Error)
    | RollbackFailed(rollback: Error, cause: Error)

  datatype Panic = Raised(code: int) | RollbackAfterPanic(recovered: Panic, rollback: Error)

  /** The outcome of one call into the driver. */
  datatype Call = Ok | Failed(error: Error) | Panicked(panic: Panic)

  /** How an operation ends: it returns a value and perhaps an error, it panics, or it ends its
      goroutine with `runtime.Goexit`, which runs deferred calls without a panic. */
  datatype Ending<+O> = Returns(output: O, err: Option<Error>) | Panics(panic: Panic) | Exits

  /** What an operation did: the transaction's state afterwards and how it ended. */
  datatype Effect<+S, +O> = Effect(state: S, ending: Ending<O>)

  /** The driver's choices for one request. `landed` says whether a Commit that did not return
      nil nevertheless reached durable storage; the program cannot observe it. */
  datatype Driver = Driver(begin: Call, commit: Call, landed: bool, rollback: Call)

  datatype Event =
    | Begin(id: nat)
    | CommitReturned(id: nat, ok: bool)
    | CommitPanicked(id: nat)
    | Rollback(id: nat)

  /** What `Run` gives its caller: `Returned(None)` is success. */
  datatype Outcome = Returned(err: Option<Error>) | Raises(panic: Panic) | Exited

  datatype ValueOutcome<+O> = Value(output: O, err: Option<Error>) | ValueRaises(panic: Panic) | ValueExited

  datatype Request<!S, O> = Request(operation: S -> Effect<S, O>, driver: Driver)

  // ----- specification ---------------------------------------------------------------------

  datatype Report<+S> = Report(durable: S, trace: seq<Event>, outcome: Outcome)

  function AfterRollback(rollback: Call, otherwise: Outcome): Outcome {
    match rollback
    case Ok => otherwise
    case Failed(e) =>
      (match otherwise
       case Returned(Some(cause)) => Returned(Some(RollbackFailed(e, cause)))
       case Raises(p) => Raises(RollbackAfterPanic(p, e))
       case _ => otherwise)
    case Panicked(p) => Raises(p)
  }

  /** The effect of one request on durable state `s`, as transaction number `id`. */
  function Serve<S, O>(s: S, id: nat, r: Request<S, O>): Report<S> {
    match r.driver.begin
    case Failed(e) => Report(s, [], Returned(Some(BeginFailed(e))))
    case Panicked(p) => Report(s, [], Raises(p))
    case Ok =>
      var effect := r.operation(s);
      match effect.ending
      case Exits => Report(s, [Begin(id)], Exited)
      case Panics(p) => Report(s, [Begin(id), Rollback(id)], AfterRollback(r.driver.rollback, Raises(p)))
      case Returns(_, Some(e)) =>
        Report(s, [Begin(id), Rollback(id)], AfterRollback(r.driver.rollback, Returned(Some(e))))
      case Returns(_, None) =>
        match r.driver.commit
        case Ok => Report(effect.state, [Begin(id), CommitReturned(id, true)], Returned(None))
        case Failed(e) =>
          Report(if r.driver.landed then effect.state else s, [Begin(id), CommitReturned(id, false)],
                 Returned(Some(CommitFailed(e))))
        case Panicked(p) =>
          Report(if r.driver.landed then effect.state else s, [Begin(id), CommitPanicked(id), Rollback(id)],
                 AfterRollback(r.driver.rollback, Raises(p)))
  }

  // ----- the runner ------------------------------------------------------------------------

  /** The SQL client: durable state, and every transaction event in order. */
  class Client<S(0)> {
    var durable: S
    var begun: nat
    var log: seq<Event>

    constructor (initial: S)
      ensures durable == initial && begun == 0 && log == []
    {
      durable, begun, log := initial, 0, [];
    }

    method BeginTx(driver: Driver) returns (call: Call, tx: Tx?<S>)
      modifies this
      ensures call == driver.begin && durable == old(durable)
      ensures call.Ok? ==> tx != null && fresh(tx) && tx.client == this && tx.id == old(begun) && tx.working == durable
      ensures begun == (if call.Ok? then old(begun) + 1 else old(begun))
      ensures log == (if call.Ok? then old(log) + [Begin(old(begun))] else old(log))
    {
      call, tx := driver.begin, null;
      if call.Ok? {
        tx := new Tx(this, begun, durable);
        log, begun := log + [Begin(begun)], begun + 1;
      }
    }
  }

  class Tx<S(0)> {
    const client: Client<S>
    const id: nat
    var working: S

    constructor (client: Client<S>, id: nat, working: S)
      ensures this.client == client && this.id == id && this.working == working
    {
      this.client, this.id, this.working := client, id, working;
    }

    method Commit(driver: Driver) returns (call: Call)
      modifies client
      ensures call == driver.commit && client.begun == old(client.begun)
      ensures client.durable == (if call.Ok? || driver.landed then working else old(client.durable))
      ensures client.log ==
        old(client.log) + [if call.Panicked? then CommitPanicked(id) else CommitReturned(id, call.Ok?)]
    {
      call := driver.commit;
      if call.Ok? || driver.landed {
        client.durable := working;
      }
      client.log := client.log + [if call.Panicked? then CommitPanicked(id) else CommitReturned(id, call.Ok?)];
    }

    method Rollback(driver: Driver) returns (call: Call)
      modifies client
      ensures call == driver.rollback
      ensures client.durable == old(client.durable) && client.begun == old(client.begun)
      ensures client.log == old(client.log) + [Event.Rollback(id)]
    {
      call := driver.rollback;
      client.log := client.log + [Event.Rollback(id)];
    }
  }

  class TxRunner<S(0)> {
    var client: Client?<S>

    constructor (client: Client<S>)
      ensures this.client == client
    {
      this.client := client;
    }
  }

  /** `TxRunner.Run`. The second half is the deferred function: it runs on every way out of the
      first half, with `panicking` holding what `recover()` returns. */
  method Run<S(0), O>(runner: TxRunner?<S>, operation: Option<S -> Effect<S, O>>, driver: Driver)
    returns (outcome: Outcome)
    modifies if runner != null && runner.client != null then {runner.client} else {}
    ensures runner == null || runner.client == null ==> outcome == Returned(Some(NotConfigured))
    ensures runner != null && runner.client != null && operation.None? ==>
      outcome == Returned(Some(OperationRequired)) && unchanged(runner.client)
    ensures runner != null && runner.client != null && operation.Some? ==>
      var report := Serve(old(runner.client.durable), old(runner.client.begun), Request(operation.value, driver));
      && outcome == report.outcome
      && runner.client.durable == report.durable
      && runner.client.log == old(runner.client.log) + report.trace
      && runner.client.begun == old(runner.client.begun) + (if driver.begin.Ok? then 1 else 0)
  {
    if runner == null || runner.client == null {
      return Returned(Some(NotConfigured));
    }
    if operation.None? {
      return Returned(Some(OperationRequired));
    }

    var begin, tx := runner.client.BeginTx(driver);
    match begin {
      case Failed(e) => return Returned(Some(BeginFailed(e)));
      case Panicked(p) => return Raises(p);
      case Ok =>
    }

    var err: Option<Error>, panicking: Option<Panic> := None, None;
    var commitReturned, exiting := false, false;
    var effect := (operation.value)(tx.working);
    tx.working := effect.state;
    match effect.ending {
      case Exits => exiting := true;
      case Panics(p) => panicking := Some(p);
      case Returns(_, Some(operationErr)) => err := Some(operationErr);
      case Returns(_, None) =>
        var commit := tx.Commit(driver);
        match commit {
          case Ok => commitReturned := true;
          case Failed(e) => commitReturned, err := true, Some(CommitFailed(e));
          case Panicked(p) => panicking := Some(p);
        }
    }

    if panicking.Some? {
      if !commitReturned {
        var rollback := tx.Rollback(driver);
        match rollback {
          case Failed(e) => return Raises(RollbackAfterPanic(panicking.value, e));
          case Panicked(p) => return Raises(p);
          case Ok =>
        }
      }
      return Raises(panicking.value);
    }
    if err.None? || commitReturned {
      return if exiting then Exited else Returned(err);
    }
    var rollback := tx.Rollback(driver);
    match rollback {
      case Failed(e) => err := Some(RollbackFailed(e, err.value));
      case Panicked(p) => return Raises(p);
      case Ok =>
    }
    return Returned(err);
  }

  /** `TxRunner.RunValue`: the operation's output leaves only with a nil error. */
  method RunValue<S(0), O>(runner: TxRunner?<S>, operation: Option<S -> Effect<S, O>>, driver: Driver, zero: O)
    returns (result: ValueOutcome<O>)
    modifies if runner != null && runner.client != null then {runner.client} else {}
    ensures result.Value? && result.err.Some? ==> result.output == zero
    ensures runner != null && runner.client != null && operation.Some? ==>
      var report := Serve(old(runner.client.durable), old(runner.client.begun), Request(operation.value, driver));
      && runner.client.durable == report.durable
      && runner.client.log == old(runner.client.log) + report.trace
      && (result.Value? <==> report.outcome.Returned?)
      && (result.Value? ==> result.err == report.outcome.err)
      && (result.Value? && result.err.None? ==>
            operation.value(old(runner.client.durable)).ending == Returns(result.output, None))
    ensures runner == null || runner.client == null || operation.None? ==> result.Value? && result.err.Some?
  {
    if runner == null {
      return Value(zero, Some(RunnerRequired));
    }
    if operation.None? {
      return Value(zero, Some(OperationRequired));
    }
    var output := zero;
    if runner.client != null {
      // The closure given to Run assigns the operation's output before Run looks at its error.
      var effect := (operation.value)(runner.client.durable);
      if effect.ending.Returns? {
        output := effect.ending.output;
      }
    }
    var outcome := Run(runner, operation, driver);
    match outcome {
      case Raises(p) => return ValueRaises(p);
      case Exited => return ValueExited;
      case Returned(err) => return Value(if err.Some? then zero else output, err);
    }
  }

  // ----- histories -------------------------------------------------------------------------

  function NextId(id: nat, driver: Driver): nat {
    if driver.begin.Ok? then id + 1 else id
  }

  /** The requests served one after the other. */
  function History<S, O>(s: S, id: nat, requests: seq<Request<S, O>>): seq<Report<S>>
    ensures |History(s, id, requests)| == |requests|
    decreases requests
  {
    if requests == [] then []
    else
      var report := Serve(s, id, requests[0]);
      [report] + History(report.durable, NextId(id, requests[0].driver), requests[1..])
  }

  function FinalState<S>(s: S, reports: seq<Report<S>>): S {
    if reports == [] then s else reports[|reports| - 1].durable
  }

  function Log<S>(reports: seq<Report<S>>): seq<Event> {
    if reports == [] then [] else reports[0].trace + Log(reports[1..])
  }

  /** Commit was called and did not return nil: the one case where the program cannot know. */
  predicate Undecided<S>(report: Report<S>) {
    exists e | e in report.trace :: e.CommitPanicked? || (e.CommitReturned? && !e.ok)
  }

  /** The requests whose writes are durable: success was returned, or the outcome is undecided
      and the driver's commit did land. */
  function Applied<S, O>(requests: seq<Request<S, O>>, reports: seq<Report<S>>): seq<Request<S, O>>
    requires |requests| == |reports|
  {
    if requests == [] then []
    else
      var rest := Applied(requests[1..], reports[1..]);
      if reports[0].outcome == Returned(None) || (Undecided(reports[0]) && requests[0].driver.landed)
      then [requests[0]] + rest else rest
  }

  function Compose<S, O>(s: S, requests: seq<Request<S, O>>): S {
    if requests == [] then s else Compose(requests[0].operation(s).state, requests[1..])
  }

  /** Success is returned exactly when Commit was called and returned nil. */
  lemma SuccessIffCommitted<S, O>(s: S, id: nat, r: Request<S, O>)
    ensures var report := Serve(s, id, r);
            report.outcome == Returned(None) <==> CommitReturned(id, true) in report.trace
    ensures var report := Serve(s, id, r);
            Undecided(report) ==> report.outcome != Returned(None)
  {
  }

  lemma ServeUndecided<S, O>(s: S, id: nat, r: Request<S, O>)
    ensures var report := Serve(s, id, r);
            Undecided(report) <==>
            r.driver.begin.Ok? && r.operation(s).ending.Returns? && r.operation(s).ending.err.None?
              && !r.driver.commit.Ok?
  {
    var report := Serve(s, id, r);
    if r.driver.begin.Ok? && r.operation(s).ending.Returns? && r.operation(s).ending.err.None? && !r.driver.commit.Ok? {
      assert report.trace[1] in report.trace;
    }
  }

  /** Durable state is the composition of exactly the applied requests, in order. */
  lemma {:induction false} DurableIsComposition<S, O>(s: S, id: nat, requests: seq<Request<S, O>>)
    ensures var reports := History(s, id, requests);
            FinalState(s, reports) == Compose(s, Applied(requests, reports))
    decreases requests
  {
    if requests != [] {
      var report := Serve(s, id, requests[0]);
      var tail := History(report.durable, NextId(id, requests[0].driver), requests[1..]);
      DurableIsComposition(report.durable, NextId(id, requests[0].driver), requests[1..]);
      ServeUndecided(s, id, requests[0]);
      assert History(s, id, requests)[1..] == tail;
      var rest := Applied(requests[1..], tail);
      assert ([requests[0]] + rest)[1..] == rest;
    }
  }

  /** The requests that were told "success". */
  function Succeeded<S, O>(requests: seq<Request<S, O>>, reports: seq<Report<S>>): seq<Request<S, O>>
    requires |requests| == |reports|
  {
    if requests == [] then []
    else if reports[0].outcome == Returned(None)
    then [requests[0]] + Succeeded(requests[1..], reports[1..])
    else Succeeded(requests[1..], reports[1..])
  }

  /** Unless a commit is undecided, durable state is the composition of exactly the requests
      that were told "success". */
  lemma {:induction false} DurableIsSuccesses<S, O>(s: S, id: nat, requests: seq<Request<S, O>>)
    requires forall k :: 0 <= k < |requests| ==> !Undecided(History(s, id, requests)[k])
    ensures var reports := History(s, id, requests);
            FinalState(s, reports) == Compose(s, Succeeded(requests, reports))
    decreases requests
  {
    DurableIsComposition(s, id, requests);
    AppliedAreSuccesses(requests, History(s, id, requests));
  }

  lemma {:induction false} AppliedAreSuccesses<S, O>(requests: seq<Request<S, O>>, reports: seq<Report<S>>)
    requires |requests| == |reports|
    requires forall k :: 0 <= k < |reports| ==> !Undecided(reports[k])
    ensures Applied(requests, reports) == Succeeded(requests, reports)
  {
    if requests != [] {
      AppliedAreSuccesses(requests[1..], reports[1..]);
    }
  }

  lemma {:induction false} LogIds<S, O>(s: S, id: nat, requests: seq<Request<S, O>>)
    ensures forall e :: e in Log(History(s, id, requests)) ==> e.id >= id
    decreases requests
  {
    if requests != [] {
      var report := Serve(s, id, requests[0]);
      LogIds(report.durable, NextId(id, requests[0].driver), requests[1..]);
      assert History(s, id, requests)[1..] == History(report.durable, NextId(id, requests[0].driver), requests[1..]);
    }
  }

  /** A trace that never rolls a transaction back after its Commit returned. */
  ghost predicate CommitIsFinal(log: seq<Event>) {
    forall i, j :: 0 <= i < j < |log| && log[i].CommitReturned? && log[j].Rollback? ==> log[i].id != log[j].id
  }

  lemma ServeCommitIsFinal<S, O>(s: S, id: nat, r: Request<S, O>)
    ensures CommitIsFinal(Serve(s, id, r).trace)
    ensures forall e :: e in Serve(s, id, r).trace ==> e.id == id
    ensures r.driver.begin.Ok? || Serve(s, id, r).trace == []
  {
  }

  lemma CommitIsFinalAppend(a: seq<Event>, b: seq<Event>, id: nat)
    requires CommitIsFinal(a) && CommitIsFinal(b)
    requires forall e :: e in a ==> e.id < id
    requires forall e :: e in b ==> e.id >= id
    ensures CommitIsFinal(a + b)
  {
  }

  /** No Rollback of a transaction ever follows a Commit of it that returned, in any history. */
  lemma {:induction false} NoRollbackAfterCommit<S, O>(s: S, id: nat, requests: seq<Request<S, O>>)
    ensures CommitIsFinal(Log(History(s, id, requests)))
    decreases requests
  {
    if requests != [] {
      var report := Serve(s, id, requests[0]);
      var next := NextId(id, requests[0].driver);
      var tail := History(report.durable, next, requests[1..]);
      assert History(s, id, requests)[1..] == tail;
      ServeCommitIsFinal(s, id, requests[0]);
      NoRollbackAfterCommit(report.durable, next, requests[1..]);
      LogIds(report.durable, next, requests[1..]);
      CommitIsFinalAppend(report.trace, Log(tail), next);
    }
  }

  /** `errors.Is`: the error is in the chain, or the tree, that another one wraps. */
  predicate Wraps(outer: Error, inner: Error) {
    outer == inner ||
    match outer
    case BeginFailed(cause) => Wraps(cause, inner)
    case CommitFailed(cause) => Wraps(cause, inner)
    case RollbackFailed(rollback, cause) => Wraps(rollback, inner) || Wraps(cause, inner)
    case _ => false
  }

  /** An operation's error is never lost or replaced: the caller gets that error itself exactly if Rollback
      returns nil, and otherwise one that wraps both errors; only a Rollback that panics hides it. An
      operation that panics panics on, with Rollback's error if there is one. */
  lemma FailureIsReported<S, O>(s: S, id: nat, r: Request<S, O>)
    requires r.driver.begin.Ok?
    ensures var outcome, ending := Serve(s, id, r).outcome, r.operation(s).ending;
            ending.Returns? && ending.err.Some? ==>
              && (outcome.Returned? <==> !r.driver.rollback.Panicked?)
              && (outcome == Returned(ending.err) <==> r.driver.rollback.Ok?)
              && (outcome.Returned? ==> outcome.err.Some? && Wraps(outcome.err.value, ending.err.value))
              && (r.driver.rollback.Failed? ==>
                    && outcome == Returned(Some(RollbackFailed(r.driver.rollback.error, ending.err.value)))
                    && Wraps(outcome.err.value, r.driver.rollback.error))
    ensures var outcome, ending := Serve(s, id, r).outcome, r.operation(s).ending;
            ending.Panics? ==>
              && outcome.Raises?
              && (r.driver.rollback.Ok? ==> outcome.panic == ending.panic)
              && (r.driver.rollback.Failed? ==>
                    outcome.panic == RollbackAfterPanic(ending.panic, r.driver.rollback.error))
    ensures r.driver.rollback.Panicked? && Rollback(id) in Serve(s, id, r).trace ==>
      Serve(s, id, r).outcome == Raises(r.driver.rollback.panic)
  {
    if r.driver.rollback.Failed? && r.operation(s).ending.Returns? && r.operation(s).ending.err.Some? {
      var e := r.operation(s).ending.err.value;
      NotItself(r.driver.rollback.error, e);
      assert Wraps(e, e) && Wraps(r.driver.rollback.error, r.driver.rollback.error);
    }
  }

  lemma {:induction false} NotItself(rollback: Error, cause: Error)
    ensures RollbackFailed(rollback, cause) != cause
    decreases cause
  {
    if cause.RollbackFailed? {
      NotItself(cause.rollback, cause.cause);
    }
  }

  /** What Begin and Commit say is wrapped likewise, and Commit's panic goes on after a Rollback. */
  lemma DriverFailureIsReported<S, O>(s: S, id: nat, r: Request<S, O>)
    ensures var outcome, d := Serve(s, id, r).outcome, r.driver;
            && (d.begin.Failed? ==> outcome == Returned(Some(BeginFailed(d.begin.error))))
            && (d.begin.Panicked? ==> outcome == Raises(d.begin.panic))
            && (Undecided(Serve(s, id, r)) && d.commit.Failed? ==>
                  outcome == Returned(Some(CommitFailed(d.commit.error))))
            && (Undecided(Serve(s, id, r)) && d.commit.Panicked? ==>
                  outcome == Raises(match d.rollback
                                    case Ok => d.commit.panic
                                    case Failed(e) => RollbackAfterPanic(d.commit.panic, e)
                                    case Panicked(p) => p))
  {
    ServeUndecided(s, id, r);
  }

  ghost predicate Finished(id: nat, log: seq<Event>) {
    Rollback(id) in log || exists ok :: CommitReturned(id, ok) in log
  }

  /** A begun transaction whose error is returned was rolled back exactly if the error is the
      operation's own, that is, exactly if Commit was not called. */
  lemma RolledBackUnlessCommitted<S, O>(s: S, id: nat, r: Request<S, O>)
    requires r.driver.begin.Ok? && Serve(s, id, r).outcome.Returned? && Serve(s, id, r).outcome.err.Some?
    ensures var trace := Serve(s, id, r).trace;
            && r.operation(s).ending.Returns?
            && (Rollback(id) in trace <==> r.operation(s).ending.err.Some?)
            && (Rollback(id) in trace <==> !exists ok :: CommitReturned(id, ok) in trace)
  {
  }

  /** So a Commit that fails is not rolled back, although the caller is told an error. */
  lemma FailedCommitIsNotRolledBack<S, O>(s: S, id: nat, r: Request<S, O>, error: Error)
    requires r.driver.begin.Ok? && r.driver.commit == Failed(error)
    requires r.operation(s).ending.Returns? && r.operation(s).ending.err.None?
    ensures Serve(s, id, r).outcome == Returned(Some(CommitFailed(error)))
    ensures Serve(s, id, r).trace == [Begin(id), CommitReturned(id, false)] && Rollback(id) !in Serve(s, id, r).trace
  {
  }

  /** A begun transaction is finished, by a returned Commit or by Rollback, unless its operation
      ends the goroutine: then the deferred function sees neither a panic nor an error. */
  lemma FinishedUnlessExited<S, O>(s: S, id: nat, r: Request<S, O>)
    ensures var report := Serve(s, id, r);
            Begin(id) in report.trace ==> (Finished(id, report.trace) <==> !r.operation(s).ending.Exits?)
    ensures Begin(id) in Serve(s, id, r).trace <==> r.driver.begin.Ok?
  {
  }

  lemma FinishedAppend(id: nat, a: seq<Event>, b: seq<Event>)
    ensures Finished(id, a + b) <==> Finished(id, a) || Finished(id, b)
  {
  }

  /** The durable state that a request of a history finds. */
  function StateBefore<S>(s: S, reports: seq<Report<S>>, k: nat): S
    requires k < |reports|
  {
    if k == 0 then s else reports[k - 1].durable
  }

  /** A request of the history begins, and its operation ends the goroutine. */
  ghost predicate Leaks<S, O>(s: S, id: nat, requests: seq<Request<S, O>>, k: nat)
    requires k < |requests|
  {
    requests[k].driver.begin.Ok? && requests[k].operation(StateBefore(s, History(s, id, requests), k)).ending.Exits?
  }

  ghost predicate AllFinished(log: seq<Event>) {
    forall n :: Begin(n) in log ==> Finished(n, log)
  }

  lemma LeaksLater<S, O>(s: S, id: nat, requests: seq<Request<S, O>>, k: nat)
    requires 0 < k < |requests|
    ensures var report := Serve(s, id, requests[0]);
            Leaks(s, id, requests, k) <==> Leaks(report.durable, NextId(id, requests[0].driver), requests[1..], k - 1)
  {
  }

  /** Every begun transaction of a history is finished, whatever errs or panics, exactly if no
      operation ends its goroutine on the state it finds. */
  lemma {:induction false} EveryBegunIsFinished<S, O>(s: S, id: nat, requests: seq<Request<S, O>>)
    ensures AllFinished(Log(History(s, id, requests))) <==> forall k :: 0 <= k < |requests| ==>
      !Leaks(s, id, requests, k)
    decreases requests
  {
    if requests != [] {
      var report := Serve(s, id, requests[0]);
      var next := NextId(id, requests[0].driver);
      var tail := History(report.durable, next, requests[1..]);
      assert History(s, id, requests)[1..] == tail;
      EveryBegunIsFinished(report.durable, next, requests[1..]);
      FinishedUnlessExited(s, id, requests[0]);
      ServeCommitIsFinal(s, id, requests[0]);
      LogIds(report.durable, next, requests[1..]);
      assert AllFinished(report.trace) <==> !Leaks(s, id, requests, 0) by {
        assert forall n :: Begin(n) in report.trace ==> n == id;
      }
      AllFinishedSplit(report.trace, Log(tail), id, next);
      LeaksSplit(s, id, requests);
    }
  }

  lemma LeaksSplit<S, O>(s: S, id: nat, requests: seq<Request<S, O>>)
    requires requests != []
    ensures var rest := Serve(s, id, requests[0]).durable;
            var next := NextId(id, requests[0].driver);
            (exists k :: 0 <= k < |requests| && Leaks(s, id, requests, k)) <==>
            Leaks(s, id, requests, 0) || exists k :: 0 <= k < |requests| - 1 && Leaks(rest, next, requests[1..], k)
  {
    hide Leaks, Serve, NextId;
    var rest := Serve(s, id, requests[0]).durable;
    var next := NextId(id, requests[0].driver);
    if k :| 0 <= k < |requests| && Leaks(s, id, requests, k) {
      if k > 0 {
        LeaksLater(s, id, requests, k);
      }
    }
    if k :| 0 <= k < |requests| - 1 && Leaks(rest, next, requests[1..], k) {
      LeaksLater(s, id, requests, k + 1);
    }
  }

  /** Transactions of separate numbers are finished separately. */
  lemma AllFinishedSplit(a: seq<Event>, b: seq<Event>, id: nat, next: nat)
    requires id <= next && (a == [] || id < next)
    requires forall e :: e in a ==> e.id == id
    requires forall e :: e in b ==> e.id >= next
    ensures AllFinished(a + b) <==> AllFinished(a) && AllFinished(b)
  {
    forall n ensures Finished(n, a + b) <==> Finished(n, a) || Finished(n, b) {
      FinishedAppend(n, a, b);
    }
    forall n | Begin(n) in a || Begin(n) in b
      ensures Finished(n, a + b) <==> if Begin(n) in a then Finished(n, a) else Finished(n, b)
    {
    }
    assert forall n :: Begin(n) in a + b <==> Begin(n) in a || Begin(n) in b;
    if AllFinished(a + b) {
      forall n | Begin(n) in a ensures Finished(n, a) {
        assert Begin(n) in a + b;
      }
      forall n | Begin(n) in b ensures Finished(n, b) {
        assert Begin(n) in a + b;
      }
    }
  }

  function Leaking(x: int): Effect<int, int> {
    Effect(x + 1, Exits)
  }

  /** The leak is real: with any driver that begins, an exiting operation leaves its transaction open. */
  lemma ExitLeavesTransactionOpen(s: int, driver: Driver)
    requires driver.begin.Ok?
    ensures var report := Serve(s, 0, Request(Leaking, driver));
            report.trace == [Begin(0)] && !Finished(0, report.trace) && report.durable == s
  {
  }
}
