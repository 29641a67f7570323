/**
 * The generic worker pool of pkg/wokerpool/workerpool.go.
 *
 * The pool's lifecycle (`New`, `Start`, `Stop`, `IsRunning`) is a class whose
 * fields are the ones the source guards with `stateMutex`: the state, the stop
 * signal of the current run and the wait group of its workers. Goroutines and
 * channels are replaced by sequential events: a run's stop signal and result
 * stream are named by the run's number, and a worker's return is an explicit call.
 *
 * A single worker's `for { select ... }` loop is modelled over a script of the
 * `select` cases that fired (`Event`), both as a specification function (`Run`)
 * and as the loop itself (`RunWorker`), each for the body as written and for
 * the body with a deferred `stopWg.Done()`. A trace counts the `Done` calls,
 * and what `Wait` does after `Stop` is derived from that count.
 */
module WorkerPool {
  import opened Wrappers
  import opened Errors

  /** `StartIdle`, `StateRunning`, `StateStopped`. */
  datatype State = Idle | Running | Stopped

  /** Where diagnostic events go; a nil logger is replaced by the process-wide default. */
  datatype Logger = ProcessDefault | JsonStdout | Given(name: string)

  /** `Config`; `None` stands for a nil logger. */
  datatype Config = Config(workerCount: int, logger: Option<Logger>)

  /** The defaulting `New` applies to its configuration. */
  function Normalize(config: Config): (c: Config)
    ensures c.workerCount >= 1
    ensures config.workerCount >= 1 ==> c.workerCount == config.workerCount
    ensures config.workerCount <= 0 ==> c.workerCount == 1
    ensures config.logger.Some? ==> c.logger == config.logger
    ensures config.logger.None? ==> c.logger == Some(ProcessDefault)
  {
    Config(if config.workerCount <= 0 then 1 else config.workerCount,
           Some(config.logger.GetOr(ProcessDefault)))
  }

  /** `DefaultConfig`: one worker and the process-wide logger, which `New` keeps as they are. */
  function DefaultConfig(): (c: Config)
    ensures c.workerCount == 1 && c.logger == Some(ProcessDefault)
    ensures Normalize(c) == c
  {
    Config(1, Some(ProcessDefault))
  }

  /** A `sync.WaitGroup`: the number of `Add`ed tasks whose `Done` has not been called. */
  datatype WaitGroup = WaitGroup(counter: nat)

  /** `Add(n)`: a positive count keeps `Wait` from returning. */
  function Add(wg: WaitGroup, n: nat): (w: WaitGroup)
    ensures w.counter == wg.counter + n
    ensures WaitReturns(w) <==> WaitReturns(wg) && n == 0
  {
    WaitGroup(wg.counter + n)
  }

  /** `Done`: calling it more often than `Add` panics, hence the precondition; the last one releases `Wait`. */
  function Done(wg: WaitGroup): (w: WaitGroup)
    requires wg.counter > 0
    ensures w.counter == wg.counter - 1
    ensures WaitReturns(w) <==> wg.counter == 1
  {
    WaitGroup(wg.counter - 1)
  }

  /** `Wait` returns exactly when the wait group is back to its zero value. */
  predicate WaitReturns(wg: WaitGroup)
    ensures WaitReturns(wg) <==> wg == WaitGroup(0)
  {
    wg.counter == 0
  }

  /** The wait group after `returned` calls to `Done`. */
  function AfterReturns(wg: WaitGroup, returned: nat): (w: WaitGroup)
    requires returned <= wg.counter
    ensures w.counter == wg.counter - returned
    decreases returned
  {
    if returned == 0 then wg else Done(AfterReturns(wg, returned - 1))
  }

  /**
   * `workerPool`, with the worker body corrected to call `stopWg.Done()` when
   * it returns. `run` names the current stop signal (`stopCh`) and the result
   * stream made with it; `live` counts the run's workers that have not returned.
   */
  class Pool<J, R> {
    const process: J -> R
    const workerCount: nat
    const logger: Logger
    var state: State
    var run: nat
    var stopClosed: bool
    var wg: WaitGroup
    var live: nat
    var resultsOpen: bool
    // every stop signal made so far
    ghost var signals: set<nat>

    /**
     * Between calls the state is never `Stopped` (it is transient inside `Stop`),
     * an idle pool has no workers, and a running pool has an open stop signal,
     * an open result stream and one wait-group count per live worker.
     */
    ghost predicate Valid()
      reads this
    {
      && workerCount >= 1
      && run in signals
      && (forall g :: g in signals ==> g <= run)
      && wg.counter == live
      && state != Stopped
      && (state == Idle ==> live == 0 && !resultsOpen)
      && (state == Running ==> 1 <= live <= workerCount && !stopClosed && resultsOpen)
    }

    /** `New`: the configuration is defaulted, the first stop signal is made and the pool is idle. */
    constructor New(process: J -> R, config: Config)
      ensures Valid()
      ensures this.process == process
      ensures workerCount == Normalize(config).workerCount
      ensures Some(logger) == Normalize(config).logger
      ensures state == Idle && !IsRunning()
      ensures run == 0 && signals == {0} && !stopClosed
      ensures live == 0 && !resultsOpen
    {
      var c := Normalize(config);
      this.process := process;
      workerCount := c.workerCount;
      logger := c.logger.value;
      state := Idle;
      run := 0;
      signals := {0};
      stopClosed := false;
      wg := WaitGroup(0);
      live := 0;
      resultsOpen := false;
    }

    /** `IsRunning`. */
    function IsRunning(): (b: bool)
      reads this
      ensures b <==> state == Running
    {
      state == Running
    }

    /**
     * `Start`: from idle, makes a stop signal no earlier run used, opens the
     * run's result stream (returned by its run number) and starts exactly
     * `workerCount` workers; otherwise fails and changes nothing.
     */
    method Start() returns (r: Result<nat, Error>)
      requires Valid()
      modifies this
      ensures Valid()
      ensures old(state) != Idle ==> r == Failure(PoolNotIdle) && unchanged(this)
      ensures old(state) == Idle ==>
        && r == Success(run) && state == Running
        && run !in old(signals) && signals == old(signals) + {run} && !stopClosed
        && live == workerCount && wg == Add(old(wg), workerCount) && resultsOpen
    {
      if state != Idle {
        return Failure(PoolNotIdle);
      }
      resultsOpen := true;
      state := Running;
      run := run + 1;
      signals := signals + {run};
      stopClosed := false;
      wg := Add(wg, workerCount);
      live := workerCount;
      r := Success(run);
    }

    /** `close(wp.stopCh)`; closing a closed channel panics, hence the precondition. */
    method CloseStopSignal()
      requires !stopClosed
      modifies this`stopClosed
      ensures stopClosed
    {
      stopClosed := true;
    }

    /**
     * `Stop`: from running, closes the run's stop signal (open until now), waits
     * until every worker has returned, and leaves the pool idle with the run's
     * result stream closed; otherwise fails and changes nothing.
     */
    method Stop() returns (o: Outcome<Error>)
      requires Valid()
      modifies this
      ensures Valid()
      ensures old(state) != Running ==> o == Fail(PoolNotRunning) && unchanged(this)
      ensures old(state) == Running ==>
        && o == Pass && state == Idle
        && run == old(run) && signals == old(signals) && !old(stopClosed) && stopClosed
        && live == 0 && WaitReturns(wg) && !resultsOpen
    {
      if state != Running {
        return Fail(PoolNotRunning);
      }
      state := Stopped;
      CloseStopSignal();
      // stopWg.Wait(): each worker sees the closed stop signal, returns and calls Done
      wg := AfterReturns(wg, live);
      live := 0;
      // the supervising task's Wait returns too: it closes the result stream
      resultsOpen := false;
      state := Idle;
      o := Pass;
    }

    /**
     * A worker of the running run returns (its input was closed or its context
     * cancelled) and calls `Done`; after the last one the supervising task
     * closes the result stream and sets the state back to idle.
     */
    method WorkerReturned()
      requires Valid() && state == Running
      modifies this
      ensures Valid()
      ensures live == old(live) - 1 && wg == Done(old(wg))
      ensures state == (if live == 0 then Idle else Running)
      ensures resultsOpen <==> live > 0
      ensures run == old(run) && signals == old(signals) && stopClosed == old(stopClosed)
    {
      wg := Done(wg);
      live := live - 1;
      if live == 0 {
        resultsOpen := false;
        state := Idle;
      }
    }
  }

  /**
   * The lifecycle the conversion service's tests go through: not running at
   * first, running after `Start`, a second `Start` refused, not running after
   * `Stop`, a second `Stop` refused, and a later `Start` succeeds with a new
   * stop signal.
   */
  method LifecycleScenario<J, R>(process: J -> R, config: Config)
    returns (initially: bool, started: Result<nat, Error>, whileRunning: bool,
             secondStart: Result<nat, Error>, stopped: Outcome<Error>, afterStop: bool,
             secondStop: Outcome<Error>, restarted: Result<nat, Error>)
    ensures !initially && started.Success? && whileRunning
    ensures secondStart == Failure(PoolNotIdle)
    ensures stopped == Pass && !afterStop && secondStop == Fail(PoolNotRunning)
    ensures restarted.Success? && restarted.value != started.value
  {
    var pool := new Pool.New(process, config);
    initially := pool.IsRunning();
    started := pool.Start();
    whileRunning := pool.IsRunning();
    secondStart := pool.Start();
    stopped := pool.Stop();
    afterStop := pool.IsRunning();
    secondStop := pool.Stop();
    restarted := pool.Start();
  }

  // ---------------------------------------------------------------------------
  // One worker's loop

  /**
   * The worker's body as written, where no `return` calls `stopWg.Done()`, or
   * corrected with a `defer wp.stopWg.Done()` at its top.
   */
  datatype Body = AsWritten | DeferredDone

  /** How many times `Done` is called when the worker returns. */
  function DonesOnReturn(body: Body): (n: nat)
    ensures n == 1 <==> body == DeferredDone
    ensures n <= 1
  {
    if body == DeferredDone then 1 else 0
  }

  /** Which case of the publishing `select` fired first. */
  datatype Publish = Delivered | StopWon | CancelWon

  /**
   * Which case of the receiving `select` fired: the stop signal, the context,
   * a closed input, or a job (with the way its result's publication went).
   */
  datatype Event<J> = StopSignal | Cancel | InputClosed | Receive(job: J, publish: Publish)

  /**
   * What a worker did over a stretch of its loop: the results it computed, the
   * ones it delivered and the ones it dropped, the number of iterations,
   * whether it returned, and how many times it called `Done`.
   */
  datatype Trace<R> = Trace(computed: seq<R>, delivered: seq<R>, dropped: seq<R>, steps: nat, exited: bool, dones: nat)

  /**
   * One iteration of the loop: a received job is processed once and its result
   * is either delivered or dropped; the worker returns on the stop signal, the
   * context, a closed input, or a publication that lost to the stop signal.
   */
  function Step<J, R>(body: Body, process: J -> R, e: Event<J>): (t: Trace<R>)
    ensures t.steps == 1
    ensures t.computed == (if e.Receive? then [process(e.job)] else [])
    ensures t.delivered + t.dropped == t.computed
    ensures t.delivered != [] <==> e.Receive? && e.publish == Delivered
    ensures t.exited <==> !e.Receive? || e.publish == StopWon
    ensures t.dones == (if t.exited then DonesOnReturn(body) else 0)
  {
    match e
    case Receive(job, publish) =>
      var result := process(job);
      (match publish
       case Delivered => Trace([result], [result], [], 1, false, 0)
       case StopWon => Trace([result], [], [result], 1, true, DonesOnReturn(body))
       case CancelWon => Trace([result], [], [result], 1, false, 0))
    case _ => Trace([], [], [], 1, true, DonesOnReturn(body))
  }

  /** `a` followed by `b`. */
  function Then<R>(a: Trace<R>, b: Trace<R>): Trace<R>
  {
    Trace(a.computed + b.computed, a.delivered + b.delivered, a.dropped + b.dropped,
          a.steps + b.steps, b.exited, a.dones + b.dones)
  }

  /** The worker's loop over a script of events, up to its return or the end of the script. */
  function Run<J, R>(body: Body, process: J -> R, events: seq<Event<J>>): (t: Trace<R>)
    ensures t.steps <= |events|
    ensures |t.delivered| + |t.dropped| == |t.computed|
    ensures t.dones <= 1
    decreases |events|
  {
    if events == [] then Trace([], [], [], 0, false, 0)
    else
      var s := Step(body, process, events[0]);
      if s.exited then s else Then(s, Run(body, process, events[1..]))
  }

  /** The jobs a script hands to the worker, in order. */
  function Jobs<J>(events: seq<Event<J>>): seq<J>
    decreases |events|
  {
    if events == [] then []
    else (if events[0].Receive? then [events[0].job] else []) + Jobs(events[1..])
  }

  /** The jobs a script hands to the worker whose publication went one of the ways in `outcomes`, in order. */
  function JobsWith<J>(events: seq<Event<J>>, outcomes: set<Publish>): seq<J>
    decreases |events|
  {
    if events == [] then []
    else (if events[0].Receive? && events[0].publish in outcomes then [events[0].job] else [])
         + JobsWith(events[1..], outcomes)
  }

  function Apply<J, R>(process: J -> R, jobs: seq<J>): (results: seq<R>)
    ensures |results| == |jobs|
    decreases |jobs|
  {
    if jobs == [] then [] else [process(jobs[0])] + Apply(process, jobs[1..])
  }

  /** `worker`: the `for { select ... }` loop, run over a script of events. */
  method RunWorker<J, R>(body: Body, process: J -> R, events: seq<Event<J>>) returns (t: Trace<R>)
    ensures t == Run(body, process, events)
  {
    var computed: seq<R>, delivered: seq<R>, dropped: seq<R> := [], [], [];
    var i := 0;
    var exited := false;
    assert events[i..] == events;
    EmptyThen(Run(body, process, events));
    while i < |events| && !exited
      invariant 0 <= i <= |events|
      invariant !exited ==> Run(body, process, events) == Then(Trace(computed, delivered, dropped, i, false, 0), Run(body, process, events[i..]))
      invariant exited ==> Run(body, process, events) == Trace(computed, delivered, dropped, i, true, DonesOnReturn(body))
      decreases |events| - i
    {
      ghost var before := Trace(computed, delivered, dropped, i, false, 0);
      var result, published, stops := Select(body, process, events[i]);
      ghost var s := Step(body, process, events[i]);
      computed := computed + result;
      if published {
        delivered := delivered + result;
      } else {
        dropped := dropped + result;
      }
      exited := stops;
      StepAfter(body, process, events, i, before);
      i := i + 1;
      ghost var after := Trace(computed, delivered, dropped, i, exited, if exited then DonesOnReturn(body) else 0);
      assert after == Then(before, s);
      if !exited {
        assert Run(body, process, events) == Then(after, Run(body, process, events[i..]));
      }
    }
    // the deferred calls run when the worker returns
    var dones := 0;
    if exited && body == DeferredDone {
      dones := dones + 1;
    }
    t := Trace(computed, delivered, dropped, i, exited, dones);
  }

  /**
   * One pass through the loop's body: the result computed (none or one),
   * whether it was published, and whether the worker returns.
   */
  method Select<J, R>(body: Body, process: J -> R, e: Event<J>) returns (result: seq<R>, published: bool, stops: bool)
    ensures var s := Step(body, process, e);
      && result == s.computed && stops == s.exited
      && s.delivered == (if published then result else [])
      && s.dropped == (if published then [] else result)
  {
    match e {
      case StopSignal =>
        return [], false, true;
      case Cancel =>
        return [], false, true;
      case InputClosed =>
        return [], false, true;
      case Receive(job, publish) =>
        result := [process(job)];
        match publish {
          case Delivered =>
            published, stops := true, false;
          case StopWon =>
            published, stops := false, true;
          case CancelWon =>
            published, stops := false, false;
        }
    }
  }

  /** Nothing done, followed by `t`, is `t`. */
  lemma EmptyThen<R>(t: Trace<R>)
    ensures Then(Trace([], [], [], 0, false, 0), t) == t
  {
    assert [] + t.computed == t.computed && [] + t.delivered == t.delivered && [] + t.dropped == t.dropped;
  }

  /** Running from iteration `i` is one step followed, unless it returned, by the rest. */
  lemma StepAfter<J, R>(body: Body, process: J -> R, events: seq<Event<J>>, i: nat, before: Trace<R>)
    requires i < |events|
    ensures var s := Step(body, process, events[i]);
      Then(before, Run(body, process, events[i..]))
      == if s.exited then Then(before, s) else Then(Then(before, s), Run(body, process, events[i + 1..]))
  {
    assert events[i..][0] == events[i] && events[i..][1..] == events[i + 1..];
    var s := Step(body, process, events[i]);
    if !s.exited {
      var rest := Run(body, process, events[i + 1..]);
      assert before.computed + (s.computed + rest.computed) == (before.computed + s.computed) + rest.computed;
      assert before.delivered + (s.delivered + rest.delivered) == (before.delivered + s.delivered) + rest.delivered;
      assert before.dropped + (s.dropped + rest.dropped) == (before.dropped + s.dropped) + rest.dropped;
    }
  }

  /**
   * A stop signal, a cancelled context, a closed input, or a publication that
   * lost to the stop signal ends the loop at that iteration at the latest.
   */
  lemma {:induction false} RunExitsAtShutdown<J, R>(body: Body, process: J -> R, events: seq<Event<J>>, k: nat)
    requires k < |events|
    requires events[k].StopSignal? || events[k].Cancel? || events[k].InputClosed?
          || (events[k].Receive? && events[k].publish == StopWon)
    ensures Run(body, process, events).exited && Run(body, process, events).steps <= k + 1
    decreases k
  {
    if k > 0 && !Step(body, process, events[0]).exited {
      RunExitsAtShutdown(body, process, events[1..], k - 1);
    }
  }

  /**
   * A result whose publication loses to the context is dropped, but the worker
   * does not return: it goes round again, and returns on the next iteration
   * when the context's case fires there.
   */
  lemma CancelDuringPublishExitsNextIteration<J, R>(body: Body, process: J -> R, job: J, rest: seq<Event<J>>)
    ensures !Run(body, process, [Receive(job, CancelWon)]).exited
    ensures Run(body, process, [Receive(job, CancelWon), Cancel] + rest)
         == Trace([process(job)], [], [process(job)], 2, true, DonesOnReturn(body))
  {
    var events := [Receive(job, CancelWon), Cancel] + rest;
    assert events[1..] == [Cancel] + rest;
  }

  /** The function is applied exactly once to every job the worker took, in order. */
  lemma {:induction false} RunProcessesEachJobOnce<J, R>(body: Body, process: J -> R, events: seq<Event<J>>)
    ensures Run(body, process, events).computed == Apply(process, Jobs(events[..Run(body, process, events).steps]))
    decreases |events|
  {
    if events != [] {
      var s := Step(body, process, events[0]);
      var t := Run(body, process, events);
      var head := events[..1];
      assert head[1..] == [];
      assert Jobs(head) == if events[0].Receive? then [events[0].job] else [];
      if s.exited {
        assert events[..t.steps] == head;
      } else {
        var rest := Run(body, process, events[1..]);
        RunProcessesEachJobOnce(body, process, events[1..]);
        var taken := events[..t.steps];
        assert taken[0] == events[0] && taken[1..] == events[1..][..rest.steps];
        var js := Jobs(events[1..][..rest.steps]);
        assert Jobs(taken) == [events[0].job] + js;
        assert ([events[0].job] + js)[1..] == js;
      }
    }
  }

  /** Every result the worker computes is either delivered or dropped: none is lost and none is made up. */
  lemma {:induction false} RunKeepsEveryResult<J, R>(body: Body, process: J -> R, events: seq<Event<J>>)
    ensures var t := Run(body, process, events);
      multiset(t.delivered) + multiset(t.dropped) == multiset(t.computed)
    decreases |events|
  {
    if events != [] {
      var s := Step(body, process, events[0]);
      assert multiset(s.delivered) + multiset(s.dropped) == multiset(s.computed) by {
        assert multiset(s.delivered + s.dropped) == multiset(s.computed);
      }
      if !s.exited {
        RunKeepsEveryResult(body, process, events[1..]);
      }
    }
  }

  /**
   * The delivered results are those of the taken jobs whose publication went
   * through, and the dropped ones those of the taken jobs whose publication
   * lost to the stop signal or the context, each in the order taken.
   */
  lemma {:induction false} RunPublishesByOutcome<J, R>(body: Body, process: J -> R, events: seq<Event<J>>)
    ensures var t := Run(body, process, events);
      && t.delivered == Apply(process, JobsWith(events[..t.steps], {Delivered}))
      && t.dropped == Apply(process, JobsWith(events[..t.steps], {StopWon, CancelWon}))
    decreases |events|
  {
    if events != [] {
      var s := Step(body, process, events[0]);
      var t := Run(body, process, events);
      var e := events[0];
      var head := events[..1];
      assert head[0] == e && head[1..] == [];
      var dj := if e.Receive? && e.publish in {Delivered} then [e.job] else [];
      var xj := if e.Receive? && e.publish in {StopWon, CancelWon} then [e.job] else [];
      assert JobsWith(head, {Delivered}) == dj;
      assert JobsWith(head, {StopWon, CancelWon}) == xj;
      assert s.delivered == Apply(process, dj) && s.dropped == Apply(process, xj);
      if s.exited {
        assert events[..t.steps] == head;
      } else {
        var rest := Run(body, process, events[1..]);
        RunPublishesByOutcome(body, process, events[1..]);
        var taken := events[..t.steps];
        var later := events[1..][..rest.steps];
        assert taken[0] == e && taken[1..] == later;
        var ds := JobsWith(later, {Delivered});
        var xs := JobsWith(later, {StopWon, CancelWon});
        assert JobsWith(taken, {Delivered}) == dj + ds;
        assert JobsWith(taken, {StopWon, CancelWon}) == xj + xs;
        ApplyAppend(process, dj, ds);
        ApplyAppend(process, xj, xs);
      }
    }
  }

  lemma ApplyAppend<J, R>(process: J -> R, a: seq<J>, b: seq<J>)
    requires |a| <= 1
    ensures Apply(process, a + b) == Apply(process, a) + Apply(process, b)
  {
    if a != [] {
      assert (a + b)[0] == a[0] && (a + b)[1..] == b && a[1..] == [];
    } else {
      assert a + b == b;
    }
  }

  /**
   * With no stop signal and no cancellation, a worker given jobs `js` and then
   * a closed input delivers exactly one result per job, in order, drops none,
   * and returns.
   */
  lemma {:induction false} DrainDeliversEveryResult<J, R>(body: Body, process: J -> R, js: seq<J>, rest: seq<Event<J>>)
    ensures Run(body, process, Deliveries(js) + [InputClosed] + rest)
         == Trace(Apply(process, js), Apply(process, js), [], |js| + 1, true, DonesOnReturn(body))
    decreases |js|
  {
    var events := Deliveries(js) + [InputClosed] + rest;
    if js == [] {
      assert events[0] == InputClosed;
    } else {
      assert events[0] == Receive(js[0], Delivered);
      assert events[1..] == Deliveries(js[1..]) + [InputClosed] + rest;
      DrainDeliversEveryResult(body, process, js[1..], rest);
    }
  }

  /** The script of a worker that receives each of `js` and delivers its result. */
  function Deliveries<J>(js: seq<J>): (events: seq<Event<J>>)
    ensures |events| == |js|
    ensures forall i :: 0 <= i < |js| ==> events[i] == Receive(js[i], Delivered)
    decreases |js|
  {
    if js == [] then [] else [Receive(js[0], Delivered)] + Deliveries(js[1..])
  }

  // ---------------------------------------------------------------------------
  // The workers of a run and the wait group

  /** As written, a worker never calls `Done`, whatever its script and whether or not it returns. */
  lemma {:induction false} AsWrittenWorkerNeverCallsDone<J, R>(process: J -> R, events: seq<Event<J>>)
    ensures Run(AsWritten, process, events).dones == 0
    decreases |events|
  {
    if events != [] && !Step(AsWritten, process, events[0]).exited {
      AsWrittenWorkerNeverCallsDone(process, events[1..]);
    }
  }

  /** With the deferred `Done`, a worker calls it exactly once if it returned, and not at all otherwise. */
  lemma {:induction false} DeferredDoneCalledOnceOnReturn<J, R>(process: J -> R, events: seq<Event<J>>)
    ensures Run(DeferredDone, process, events).dones == if Run(DeferredDone, process, events).exited then 1 else 0
    decreases |events|
  {
    if events != [] && !Step(DeferredDone, process, events[0]).exited {
      DeferredDoneCalledOnceOnReturn(process, events[1..]);
    }
  }

  /** The `Done` calls made by the workers of a run, each over its own script. */
  function TotalDones<J, R>(body: Body, process: J -> R, scripts: seq<seq<Event<J>>>): (n: nat)
    ensures n <= |scripts|
    decreases |scripts|
  {
    if scripts == [] then 0 else Run(body, process, scripts[0]).dones + TotalDones(body, process, scripts[1..])
  }

  /**
   * As written, once `Start` has added one count per worker, the workers' own
   * `Done` calls leave the counter where it was, whatever each worker's script
   * (in particular when every one of them has returned): `Wait` never returns,
   * so `Stop` blocks forever while holding the state mutex, and the
   * supervising task never closes the result stream nor sets the state back
   * to idle.
   */
  lemma {:induction false} StopWaitNeverReturnsAsWritten<J, R>(process: J -> R, scripts: seq<seq<Event<J>>>)
    requires |scripts| >= 1
    ensures AfterReturns(Add(WaitGroup(0), |scripts|), TotalDones(AsWritten, process, scripts)).counter == |scripts|
    ensures !WaitReturns(AfterReturns(Add(WaitGroup(0), |scripts|), TotalDones(AsWritten, process, scripts)))
  {
    NoDonesAsWritten(process, scripts);
  }

  lemma {:induction false} NoDonesAsWritten<J, R>(process: J -> R, scripts: seq<seq<Event<J>>>)
    ensures TotalDones(AsWritten, process, scripts) == 0
    decreases |scripts|
  {
    if scripts != [] {
      AsWrittenWorkerNeverCallsDone(process, scripts[0]);
      NoDonesAsWritten(process, scripts[1..]);
    }
  }

  /**
   * With the deferred `Done`, `Wait` returns exactly when every worker the run
   * started has returned.
   */
  lemma {:induction false} StopWaitReturnsWhenAllReturned<J, R>(process: J -> R, scripts: seq<seq<Event<J>>>)
    ensures WaitReturns(AfterReturns(Add(WaitGroup(0), |scripts|), TotalDones(DeferredDone, process, scripts)))
        <==> forall i :: 0 <= i < |scripts| ==> Run(DeferredDone, process, scripts[i]).exited
  {
    AllDonesExactlyWhenAllReturned(process, scripts);
  }

  lemma {:induction false} AllDonesExactlyWhenAllReturned<J, R>(process: J -> R, scripts: seq<seq<Event<J>>>)
    ensures TotalDones(DeferredDone, process, scripts) == |scripts|
        <==> forall i :: 0 <= i < |scripts| ==> Run(DeferredDone, process, scripts[i]).exited
    decreases |scripts|
  {
    if scripts != [] {
      DeferredDoneCalledOnceOnReturn(process, scripts[0]);
      AllDonesExactlyWhenAllReturned(process, scripts[1..]);
      assert forall i :: 1 <= i < |scripts| ==> scripts[i] == scripts[1..][i - 1];
      if forall i :: 0 <= i < |scripts[1..]| ==> Run(DeferredDone, process, scripts[1..][i]).exited {
        assert forall i :: 1 <= i < |scripts| ==> Run(DeferredDone, process, scripts[i]).exited;
      }
    }
  }
}
