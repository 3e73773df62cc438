/** The bounded retry command: `RetryCommand.execute` and its private `retry` loop.

    The supplier is modelled by the outcomes of its successive calls (`supplier[i]` is what
    call number `i` does); the sequence is also the fuel that bounds the model's run.
    `interrupt == Some(k)` means that sleep number `k` (counted from 0) is interrupted. */
module Retry {
  import opened Wrappers
  import opened JavaInt
  import opened Failures

  /** What one call of the supplier does. */
  datatype Outcome = Returns | Throws(e: Failure)

  /** The final fields of a built command. The supplier is passed to `Execute` instead. */
  datatype RetryCommand = RetryCommand(waitTime: int64, maxRetries: int32, retryOn: Option<FailureClass>)

  /** How a run ends. `OutOfOutcomes` belongs to the model only: the run needed a call
      beyond the outcomes it was given. */
  datatype Ending = Returned | Threw(e: Failure) | OutOfOutcomes

  /** A run: how it ended, how many times the supplier was called, how many times
      `Thread.sleep` was entered. */
  datatype Run = Run(ending: Ending, calls: nat, sleeps: nat)

  /** The fluent builder: its fields start at Java's defaults (0, 0, null). */
  class Builder {
    var waitTime: int64
    var maxRetries: int32
    var retryOn: Option<FailureClass>

    constructor ()
      ensures waitTime == 0 && maxRetries == 0 && retryOn == None
    {
      waitTime, maxRetries, retryOn := 0, 0, None;
    }

    method RetryOn(cls: FailureClass)
      modifies this
      ensures retryOn == Some(cls) && waitTime == old(waitTime) && maxRetries == old(maxRetries)
    {
      retryOn := Some(cls);
    }

    method WaitTime(w: int64)
      modifies this
      ensures waitTime == w && retryOn == old(retryOn) && maxRetries == old(maxRetries)
    {
      waitTime := w;
    }

    method MaxRetries(m: int32)
      modifies this
      ensures maxRetries == m && retryOn == old(retryOn) && waitTime == old(waitTime)
    {
      maxRetries := m;
    }

    function Build(): (cmd: RetryCommand)
      reads this
      ensures cmd.waitTime == waitTime && cmd.maxRetries == maxRetries && cmd.retryOn == retryOn
    {
      RetryCommand(waitTime, maxRetries, retryOn)
    }
  }

  /** The exception `e` is one the command retries on: `retryOn.isAssignableFrom(e.getClass())`
      inside a `catch (Exception ...)`. */
  predicate Retryable(cmd: RetryCommand, e: Failure) {
    IsException(e) && cmd.retryOn.Some? && InstanceOf(e, cmd.retryOn.value)
  }

  /** One call that throws an exception the command retries on. */
  predicate RetryableFailure(cmd: RetryCommand, o: Outcome) {
    o.Throws? && o.e != Interrupted && Retryable(cmd, o.e)
  }

  /** The `catch` clauses of the loop body, applied to the exception `e` thrown by the sleep or
      by the supplier, in their order: InterruptedException, then Exception (a retryable one
      counts an attempt, any other is wrapped), while a java.lang.Error is not caught. `Some`
      is the run's end; `None` means the loop goes on with one more attempt counted. */
  function Caught(cmd: RetryCommand, e: Failure, attempt: int, calls: nat, sleeps: nat): (r: Option<Run>)
    ensures r.None? <==> e != Interrupted && Retryable(cmd, e) && attempt + 1 < cmd.maxRetries
  {
    if e == Interrupted then Some(Run(Threw(Esb(Interrupted)), calls, sleeps))
    else if !IsException(e) then Some(Run(Threw(e), calls, sleeps))
    else if cmd.retryOn.None? then Some(Run(Threw(NullPointer), calls, sleeps))
    else if InstanceOf(e, cmd.retryOn.value) then
      if attempt + 1 >= cmd.maxRetries then Some(Run(Threw(MaxRetriesExceeded), calls, sleeps))
      else None
    else Some(Run(Threw(Esb(e)), calls, sleeps))
  }

  /** The loop of `retry()` from the state where `next` calls have been made, `attempt` has the
      given value and `sleeps` sleeps were entered. A call that returns normally does not leave
      the loop and does not change `attempt`. */
  function RetryLoop(cmd: RetryCommand, supplier: seq<Outcome>, interrupt: Option<nat>,
                     next: nat, attempt: int, sleeps: nat): Run
    requires next <= |supplier|
    decreases |supplier| - next, cmd.maxRetries - attempt
  {
    if attempt >= cmd.maxRetries then Run(Returned, next, sleeps)
    else if cmd.waitTime < 0 then
      // Thread.sleep rejects a negative timeout before it looks at the interrupt flag, and
      // before the supplier is called
      match Caught(cmd, IllegalArgument, attempt, next, sleeps + 1)
      case Some(run) => run
      case None => RetryLoop(cmd, supplier, interrupt, next, attempt + 1, sleeps + 1)
    else if interrupt == Some(sleeps) then Caught(cmd, Interrupted, attempt, next, sleeps + 1).value
    else if next == |supplier| then Run(OutOfOutcomes, next, sleeps + 1)
    else match supplier[next]
      case Returns => RetryLoop(cmd, supplier, interrupt, next + 1, attempt, sleeps + 1)
      case Throws(e) =>
        match Caught(cmd, e, attempt, next + 1, sleeps + 1)
        case Some(run) => run
        case None => RetryLoop(cmd, supplier, interrupt, next + 1, attempt + 1, sleeps + 1)
  }

  /** `execute()`: one call; a failure the command retries on enters the loop, any other
      exception is rethrown as it is. */
  function ExecuteRun(cmd: RetryCommand, supplier: seq<Outcome>, interrupt: Option<nat>): Run {
    if |supplier| == 0 then Run(OutOfOutcomes, 0, 0)
    else match supplier[0]
      case Returns => Run(Returned, 1, 0)
      case Throws(e) =>
        if !IsException(e) then Run(Threw(e), 1, 0)
        else if cmd.retryOn.None? then Run(Threw(NullPointer), 1, 0)
        else if InstanceOf(e, cmd.retryOn.value) then RetryLoop(cmd, supplier, interrupt, 1, 0, 0)
        else Run(Threw(e), 1, 0)
  }

  /** `execute()` */
  method Execute(cmd: RetryCommand, supplier: seq<Outcome>, interrupt: Option<nat>) returns (run: Run)
    ensures run == ExecuteRun(cmd, supplier, interrupt)
  {
    if |supplier| == 0 {
      return Run(OutOfOutcomes, 0, 0);
    }
    match supplier[0]
    case Returns =>
      run := Run(Returned, 1, 0);
    case Throws(e) =>
      if !IsException(e) {
        run := Run(Threw(e), 1, 0);
      } else if cmd.retryOn.None? {
        run := Run(Threw(NullPointer), 1, 0);
      } else if InstanceOf(e, cmd.retryOn.value) {
        run := RetryAfterFirstFailure(cmd, supplier, interrupt);
      } else {
        run := Run(Threw(e), 1, 0);
      }
  }

  /** `retry()`: sleep, call again, count the failures the command retries on. */
  method RetryAfterFirstFailure(cmd: RetryCommand, supplier: seq<Outcome>, interrupt: Option<nat>)
    returns (run: Run)
    requires |supplier| >= 1
    ensures run == RetryLoop(cmd, supplier, interrupt, 1, 0, 0)
  {
    var attempt: int := 0;
    var calls: nat := 1;
    var sleeps: nat := 0;
    while attempt < cmd.maxRetries
      invariant 1 <= calls <= |supplier|
      invariant RetryLoop(cmd, supplier, interrupt, calls, attempt, sleeps)
             == RetryLoop(cmd, supplier, interrupt, 1, 0, 0)
      decreases |supplier| - calls, cmd.maxRetries - attempt
    {
      // Thread.sleep(waitTime)
      var thrown: Option<Failure> := None;
      if cmd.waitTime < 0 {
        thrown := Some(IllegalArgument);
      } else if interrupt == Some(sleeps) {
        thrown := Some(Interrupted);
      } else if calls == |supplier| {
        return Run(OutOfOutcomes, calls, sleeps + 1);
      } else {
        // function.get()
        if supplier[calls].Throws? {
          thrown := Some(supplier[calls].e);
        }
        calls := calls + 1;
      }
      sleeps := sleeps + 1;
      if thrown.Some? {
        var verdict := Caught(cmd, thrown.value, attempt, calls, sleeps);
        if verdict.Some? {
          return verdict.value;
        }
        attempt := attempt + 1;
      }
    }
    run := Run(Returned, calls, sleeps);
  }

  // ---------------------------------------------------------------------------------------
  // Properties of execute()

  /** A first call that returns ends the command: one call, no sleep. */
  lemma FirstCallReturns(cmd: RetryCommand, supplier: seq<Outcome>, interrupt: Option<nat>)
    requires |supplier| >= 1 && supplier[0] == Returns
    ensures ExecuteRun(cmd, supplier, interrupt) == Run(Returned, 1, 0)
  {
  }

  /** A first-call exception the command does not retry on is rethrown unchanged, with no
      sleep and no further call. */
  lemma FirstFailureRethrown(cmd: RetryCommand, supplier: seq<Outcome>, interrupt: Option<nat>)
    requires |supplier| >= 1 && supplier[0].Throws?
    requires cmd.retryOn.Some? && !Retryable(cmd, supplier[0].e)
    ensures ExecuteRun(cmd, supplier, interrupt) == Run(Threw(supplier[0].e), 1, 0)
  {
  }

  /** With `maxRetries <= 0` a retryable first failure is swallowed: `execute` returns
      normally after the one call. */
  lemma NoRetriesSwallowsFailure(cmd: RetryCommand, supplier: seq<Outcome>, interrupt: Option<nat>)
    requires cmd.maxRetries <= 0
    requires |supplier| >= 1 && RetryableFailure(cmd, supplier[0])
    ensures ExecuteRun(cmd, supplier, interrupt) == Run(Returned, 1, 0)
  {
  }

  /** An exception the command does not retry on, thrown by a call inside the loop, is
      wrapped in an ESBException (unlike on the first call). */
  lemma LoopFailureWrapped(cmd: RetryCommand, supplier: seq<Outcome>, e: Failure)
    requires cmd.maxRetries >= 1 && cmd.waitTime >= 0
    requires |supplier| >= 2 && RetryableFailure(cmd, supplier[0])
    requires supplier[1] == Throws(e) && IsException(e) && e != Interrupted && !Retryable(cmd, e)
    ensures ExecuteRun(cmd, supplier, None) == Run(Threw(Esb(e)), 2, 1)
  {
  }

  /** An interrupted wait ends the command with an ESBException: no further call. (With a
      negative wait time the sleep fails on its argument first; see NegativeWaitTimeWrapped.) */
  lemma InterruptStops(cmd: RetryCommand, supplier: seq<Outcome>)
    requires cmd.maxRetries >= 1 && cmd.waitTime >= 0
    requires |supplier| >= 1 && RetryableFailure(cmd, supplier[0])
    ensures ExecuteRun(cmd, supplier, Some(0)) == Run(Threw(Esb(Interrupted)), 1, 1)
  {
  }

  /** A negative wait time makes the first `Thread.sleep` throw IllegalArgumentException,
      whether or not the thread is interrupted, and it is wrapped like any other exception the
      command does not retry on. */
  lemma NegativeWaitTimeWrapped(cmd: RetryCommand, supplier: seq<Outcome>, interrupt: Option<nat>)
    requires cmd.maxRetries >= 1 && cmd.waitTime < 0
    requires cmd.retryOn == Some(OverlappingFileLockClass)
    requires |supplier| >= 1 && RetryableFailure(cmd, supplier[0])
    ensures ExecuteRun(cmd, supplier, interrupt) == Run(Threw(Esb(IllegalArgument)), 1, 1)
  {
  }

  /** With a negative wait time and a command that retries on every Exception, each sleep's
      IllegalArgumentException counts an attempt: the loop throws MaxRetriesExceeded after
      `maxRetries - attempt` more sleeps, without calling the supplier again. */
  lemma {:induction false} LoopSleepsExhaust(cmd: RetryCommand, supplier: seq<Outcome>,
                                             interrupt: Option<nat>, next: nat, attempt: int, sleeps: nat)
    requires cmd.waitTime < 0 && cmd.retryOn == Some(ExceptionClass)
    requires next <= |supplier| && 0 <= attempt < cmd.maxRetries
    ensures RetryLoop(cmd, supplier, interrupt, next, attempt, sleeps)
         == Run(Threw(MaxRetriesExceeded), next, sleeps + (cmd.maxRetries - attempt))
    decreases cmd.maxRetries - attempt
  {
    if attempt + 1 < cmd.maxRetries {
      LoopSleepsExhaust(cmd, supplier, interrupt, next, attempt + 1, sleeps + 1);
    }
  }

  /** The same for `execute`: with a negative wait time and `retryOn` Exception, a retryable
      first failure ends in MaxRetriesExceeded after one call and `maxRetries` sleeps, whether
      or not the thread is interrupted. */
  lemma NegativeWaitTimeExhausts(cmd: RetryCommand, supplier: seq<Outcome>, interrupt: Option<nat>)
    requires cmd.maxRetries >= 1 && cmd.waitTime < 0 && cmd.retryOn == Some(ExceptionClass)
    requires |supplier| >= 1 && RetryableFailure(cmd, supplier[0])
    ensures ExecuteRun(cmd, supplier, interrupt) == Run(Threw(MaxRetriesExceeded), 1, cmd.maxRetries as nat)
  {
    LoopSleepsExhaust(cmd, supplier, interrupt, 1, 0, 0);
  }

  /** From a loop state where all remaining calls fail retryably, the loop makes exactly
      `maxRetries - attempt` more calls and sleeps and then throws MaxRetriesExceeded. */
  lemma {:induction false} LoopExhausts(cmd: RetryCommand, supplier: seq<Outcome>,
                                        next: nat, attempt: int, sleeps: nat)
    requires cmd.waitTime >= 0 && 0 <= attempt < cmd.maxRetries
    requires next + (cmd.maxRetries - attempt) <= |supplier|
    requires forall i :: next <= i < |supplier| ==> RetryableFailure(cmd, supplier[i])
    ensures RetryLoop(cmd, supplier, None, next, attempt, sleeps)
         == Run(Threw(MaxRetriesExceeded), next + (cmd.maxRetries - attempt),
                sleeps + (cmd.maxRetries - attempt))
    decreases cmd.maxRetries - attempt
  {
    assert RetryableFailure(cmd, supplier[next]);
    if attempt + 1 < cmd.maxRetries {
      LoopExhausts(cmd, supplier, next + 1, attempt + 1, sleeps + 1);
    }
  }

  /** If every call fails retryably and `maxRetries >= 1`, the supplier is called exactly
      `1 + maxRetries` times, with `maxRetries` sleeps, before MaxRetriesExceeded. */
  lemma AllFailuresExhaust(cmd: RetryCommand, supplier: seq<Outcome>)
    requires cmd.waitTime >= 0 && cmd.maxRetries >= 1
    requires |supplier| == 1 + cmd.maxRetries
    requires forall i :: 0 <= i < |supplier| ==> RetryableFailure(cmd, supplier[i])
    ensures ExecuteRun(cmd, supplier, None)
         == Run(Threw(MaxRetriesExceeded), 1 + cmd.maxRetries, cmd.maxRetries as nat)
  {
    assert RetryableFailure(cmd, supplier[0]);
    LoopExhausts(cmd, supplier, 1, 0, 0);
  }

  /** Inside the loop `attempt` stays below `maxRetries`, so the loop never ends normally. */
  lemma {:induction false} LoopNeverReturns(cmd: RetryCommand, supplier: seq<Outcome>,
                                            interrupt: Option<nat>, next: nat, attempt: int, sleeps: nat)
    requires next <= |supplier| && attempt < cmd.maxRetries
    ensures RetryLoop(cmd, supplier, interrupt, next, attempt, sleeps).ending != Returned
    decreases |supplier| - next, cmd.maxRetries - attempt
  {
    if cmd.waitTime < 0 {
      if Caught(cmd, IllegalArgument, attempt, next, sleeps + 1).None? {
        LoopNeverReturns(cmd, supplier, interrupt, next, attempt + 1, sleeps + 1);
      }
    } else if interrupt == Some(sleeps) {
    } else if next < |supplier| {
      match supplier[next]
      case Returns =>
        LoopNeverReturns(cmd, supplier, interrupt, next + 1, attempt, sleeps + 1);
      case Throws(e) =>
        if Caught(cmd, e, attempt, next + 1, sleeps + 1).None? {
          LoopNeverReturns(cmd, supplier, interrupt, next + 1, attempt + 1, sleeps + 1);
        }
    }
  }

  /** Once the loop is entered with `maxRetries >= 1`, `execute` can only end by throwing:
      a call that returns normally inside the loop is not a way out. */
  lemma RetryEndsOnlyByThrowing(cmd: RetryCommand, supplier: seq<Outcome>, interrupt: Option<nat>)
    requires cmd.maxRetries >= 1
    requires |supplier| >= 1 && RetryableFailure(cmd, supplier[0])
    ensures ExecuteRun(cmd, supplier, interrupt).ending != Returned
  {
    LoopNeverReturns(cmd, supplier, interrupt, 1, 0, 0);
  }

  /** The number of calls among `s` that fail retryably. */
  function RetryableCount(cmd: RetryCommand, s: seq<Outcome>): (n: nat)
    ensures n <= |s|
  {
    if s == [] then 0
    else (if RetryableFailure(cmd, s[0]) then 1 else 0) + RetryableCount(cmd, s[1..])
  }

  /** The number of calls among `s` that return normally. */
  function ReturnsCount(s: seq<Outcome>): (n: nat)
    ensures n <= |s|
  {
    if s == [] then 0 else (if s[0] == Returns then 1 else 0) + ReturnsCount(s[1..])
  }

  lemma {:induction false} RetryableCountAppend(cmd: RetryCommand, s: seq<Outcome>, o: Outcome)
    ensures RetryableCount(cmd, s + [o]) == RetryableCount(cmd, s) + (if RetryableFailure(cmd, o) then 1 else 0)
  {
    if s != [] {
      assert (s + [o])[1..] == s[1..] + [o];
      RetryableCountAppend(cmd, s[1..], o);
    }
  }

  /** Each retryable failure inside the loop raises `attempt` by exactly one and nothing else
      does (with a non-negative wait time): when the loop throws MaxRetriesExceeded, the calls
      it made held exactly `maxRetries - attempt` retryable failures. */
  lemma {:induction false} LoopCountsFailures(cmd: RetryCommand, supplier: seq<Outcome>,
                                              interrupt: Option<nat>, next: nat, attempt: int, sleeps: nat)
    requires cmd.waitTime >= 0 && next <= |supplier| && attempt < cmd.maxRetries
    requires RetryLoop(cmd, supplier, interrupt, next, attempt, sleeps).ending == Threw(MaxRetriesExceeded)
    ensures var run := RetryLoop(cmd, supplier, interrupt, next, attempt, sleeps);
            next <= run.calls <= |supplier| &&
            RetryableCount(cmd, supplier[next..run.calls]) == cmd.maxRetries - attempt
    decreases |supplier| - next
  {
    var run := RetryLoop(cmd, supplier, interrupt, next, attempt, sleeps);
    if interrupt != Some(sleeps) && next < |supplier| {
      var o := supplier[next];
      match o
      case Returns =>
        LoopCountsFailures(cmd, supplier, interrupt, next + 1, attempt, sleeps + 1);
        assert supplier[next..run.calls] == [o] + supplier[next + 1..run.calls];
      case Throws(e) =>
        if Caught(cmd, e, attempt, next + 1, sleeps + 1).None? {
          LoopCountsFailures(cmd, supplier, interrupt, next + 1, attempt + 1, sleeps + 1);
          assert supplier[next..run.calls] == [o] + supplier[next + 1..run.calls];
        } else {
          assert supplier[next..run.calls] == [o];
        }
    }
  }

  /** MaxRetriesExceeded is thrown exactly when the calls after the first one have failed
      retryably `maxRetries` times. */
  lemma ExhaustionCountsMaxRetries(cmd: RetryCommand, supplier: seq<Outcome>, interrupt: Option<nat>)
    requires cmd.waitTime >= 0
    requires |supplier| >= 1 && RetryableFailure(cmd, supplier[0])
    requires ExecuteRun(cmd, supplier, interrupt).ending == Threw(MaxRetriesExceeded)
    ensures var run := ExecuteRun(cmd, supplier, interrupt);
            1 <= run.calls <= |supplier| &&
            RetryableCount(cmd, supplier[1..run.calls]) == cmd.maxRetries
  {
    assert cmd.maxRetries >= 1;
    LoopCountsFailures(cmd, supplier, interrupt, 1, 0, 0);
  }

  /** The loop does not run out of outcomes when the outcomes left cover every retryable
      failure it can still absorb plus every normal return among them. */
  lemma {:induction false} LoopFinishes(cmd: RetryCommand, supplier: seq<Outcome>,
                                        interrupt: Option<nat>, next: nat, attempt: int, sleeps: nat)
    requires next <= |supplier|
    requires ReturnsCount(supplier[next..]) + (cmd.maxRetries - attempt) <= |supplier| - next
    ensures RetryLoop(cmd, supplier, interrupt, next, attempt, sleeps).ending != OutOfOutcomes
    decreases |supplier| - next, cmd.maxRetries - attempt
  {
    if attempt >= cmd.maxRetries {
    } else if cmd.waitTime < 0 {
      if Caught(cmd, IllegalArgument, attempt, next, sleeps + 1).None? {
        LoopFinishes(cmd, supplier, interrupt, next, attempt + 1, sleeps + 1);
      }
    } else if interrupt == Some(sleeps) {
    } else {
      assert next < |supplier|;
      assert supplier[next..] == [supplier[next]] + supplier[next + 1..];
      match supplier[next]
      case Returns =>
        LoopFinishes(cmd, supplier, interrupt, next + 1, attempt, sleeps + 1);
      case Throws(e) =>
        if Caught(cmd, e, attempt, next + 1, sleeps + 1).None? {
          LoopFinishes(cmd, supplier, interrupt, next + 1, attempt + 1, sleeps + 1);
        }
    }
  }

  /** The loop never claims more calls than it was given outcomes for. */
  lemma {:induction false} LoopCallsBounded(cmd: RetryCommand, supplier: seq<Outcome>,
                                            interrupt: Option<nat>, next: nat, attempt: int, sleeps: nat)
    requires next <= |supplier|
    ensures next <= RetryLoop(cmd, supplier, interrupt, next, attempt, sleeps).calls <= |supplier|
    decreases |supplier| - next, cmd.maxRetries - attempt
  {
    if attempt >= cmd.maxRetries {
    } else if cmd.waitTime < 0 {
      if Caught(cmd, IllegalArgument, attempt, next, sleeps + 1).None? {
        LoopCallsBounded(cmd, supplier, interrupt, next, attempt + 1, sleeps + 1);
      }
    } else if interrupt == Some(sleeps) {
    } else if next < |supplier| {
      match supplier[next]
      case Returns =>
        LoopCallsBounded(cmd, supplier, interrupt, next + 1, attempt, sleeps + 1);
      case Throws(e) =>
        if Caught(cmd, e, attempt, next + 1, sleeps + 1).None? {
          LoopCallsBounded(cmd, supplier, interrupt, next + 1, attempt + 1, sleeps + 1);
        }
    }
  }

  /** `execute` calls the supplier at most once per outcome it is given. */
  lemma ExecuteCallsBounded(cmd: RetryCommand, supplier: seq<Outcome>, interrupt: Option<nat>)
    ensures ExecuteRun(cmd, supplier, interrupt).calls <= |supplier|
  {
    if |supplier| > 0 {
      LoopCallsBounded(cmd, supplier, interrupt, 1, 0, 0);
    }
  }

  /** Retryable failures inside the loop each count one attempt and one sleep, and change
      nothing else, while attempts remain. */
  lemma {:induction false} LoopAbsorbsFailures(cmd: RetryCommand, supplier: seq<Outcome>,
                                               next: nat, attempt: int, sleeps: nat, k: nat)
    requires cmd.waitTime >= 0 && next <= k <= |supplier|
    requires attempt + (k - next) < cmd.maxRetries
    requires forall i :: next <= i < k ==> RetryableFailure(cmd, supplier[i])
    ensures RetryLoop(cmd, supplier, None, next, attempt, sleeps)
         == RetryLoop(cmd, supplier, None, k, attempt + (k - next), sleeps + (k - next))
    decreases k - next
  {
    if next < k {
      assert RetryableFailure(cmd, supplier[next]);
      LoopAbsorbsFailures(cmd, supplier, next + 1, attempt + 1, sleeps + 1, k);
    }
  }

  /** As written, a call that returns after `k` retryable failures (1 <= k <= maxRetries) is
      lost when every later call fails retryably: the command still throws MaxRetriesExceeded,
      after maxRetries + 2 calls and maxRetries + 1 sleeps. */
  lemma SuccessInLoopIsLost(cmd: RetryCommand, supplier: seq<Outcome>, k: nat)
    requires cmd.waitTime >= 0 && 1 <= k <= cmd.maxRetries
    requires |supplier| >= cmd.maxRetries + 2
    requires forall i :: 0 <= i < |supplier| && i != k ==> RetryableFailure(cmd, supplier[i])
    requires supplier[k] == Returns
    ensures ExecuteRun(cmd, supplier, None)
         == Run(Threw(MaxRetriesExceeded), cmd.maxRetries as nat + 2, cmd.maxRetries as nat + 1)
  {
    assert RetryableFailure(cmd, supplier[0]);
    LoopAbsorbsFailures(cmd, supplier, 1, 0, 0, k);
    assert RetryLoop(cmd, supplier, None, k, k - 1, k - 1) == RetryLoop(cmd, supplier, None, k + 1, k - 1, k);
    LoopExhausts(cmd, supplier, k + 1, k - 1, k);
  }

  // ---------------------------------------------------------------------------------------
  // The loop as evidently intended: a call that returns leaves the loop.

  function IntendedLoop(cmd: RetryCommand, supplier: seq<Outcome>, interrupt: Option<nat>,
                        next: nat, attempt: int, sleeps: nat): Run
    requires next <= |supplier|
    decreases |supplier| - next, cmd.maxRetries - attempt
  {
    if attempt >= cmd.maxRetries then Run(Returned, next, sleeps)
    else if cmd.waitTime < 0 then
      match Caught(cmd, IllegalArgument, attempt, next, sleeps + 1)
      case Some(run) => run
      case None => IntendedLoop(cmd, supplier, interrupt, next, attempt + 1, sleeps + 1)
    else if interrupt == Some(sleeps) then Caught(cmd, Interrupted, attempt, next, sleeps + 1).value
    else if next == |supplier| then Run(OutOfOutcomes, next, sleeps + 1)
    else match supplier[next]
      case Returns => Run(Returned, next + 1, sleeps + 1)
      case Throws(e) =>
        match Caught(cmd, e, attempt, next + 1, sleeps + 1)
        case Some(run) => run
        case None => IntendedLoop(cmd, supplier, interrupt, next + 1, attempt + 1, sleeps + 1)
  }

  function IntendedRun(cmd: RetryCommand, supplier: seq<Outcome>, interrupt: Option<nat>): Run {
    if |supplier| == 0 then Run(OutOfOutcomes, 0, 0)
    else match supplier[0]
      case Returns => Run(Returned, 1, 0)
      case Throws(e) =>
        if !IsException(e) then Run(Threw(e), 1, 0)
        else if cmd.retryOn.None? then Run(Threw(NullPointer), 1, 0)
        else if InstanceOf(e, cmd.retryOn.value) then IntendedLoop(cmd, supplier, interrupt, 1, 0, 0)
        else Run(Threw(e), 1, 0)
  }

  lemma {:induction false} IntendedLoopSucceeds(cmd: RetryCommand, supplier: seq<Outcome>,
                                                next: nat, attempt: int, sleeps: nat, k: nat)
    requires cmd.waitTime >= 0 && 0 <= attempt && next <= k < |supplier|
    requires attempt + (k - next) < cmd.maxRetries
    requires forall i :: next <= i < k ==> RetryableFailure(cmd, supplier[i])
    requires supplier[k] == Returns
    ensures IntendedLoop(cmd, supplier, None, next, attempt, sleeps)
         == Run(Returned, k + 1, sleeps + (k + 1 - next))
    decreases k - next
  {
    if next < k {
      assert RetryableFailure(cmd, supplier[next]);
      IntendedLoopSucceeds(cmd, supplier, next + 1, attempt + 1, sleeps + 1, k);
    }
  }

  /** As intended, `maxRetries = R >= 1` tolerates R retryable failures: a call that returns
      after them ends the command normally after R + 1 calls and R sleeps. */
  lemma IntendedRetrySucceeds(cmd: RetryCommand, supplier: seq<Outcome>)
    requires cmd.waitTime >= 0 && cmd.maxRetries >= 1
    requires |supplier| == 1 + cmd.maxRetries
    requires forall i :: 0 <= i < cmd.maxRetries ==> RetryableFailure(cmd, supplier[i])
    requires supplier[cmd.maxRetries] == Returns
    ensures IntendedRun(cmd, supplier, None) == Run(Returned, 1 + cmd.maxRetries, cmd.maxRetries as nat)
  {
    assert RetryableFailure(cmd, supplier[0]);
    IntendedLoopSucceeds(cmd, supplier, 1, 0, 0, cmd.maxRetries as nat);
  }

  /** As written, the same scenario with one more contended call after the success ends in
      MaxRetriesExceeded: maxRetries 1, failure, success, failure. */
  lemma WrittenLosesSuccess()
    ensures var cmd := RetryCommand(500, 1, Some(OverlappingFileLockClass));
            var supplier := [Throws(OverlappingFileLock), Returns, Throws(OverlappingFileLock)];
            && ExecuteRun(cmd, supplier, None) == Run(Threw(MaxRetriesExceeded), 3, 2)
            && IntendedRun(cmd, supplier, None) == Run(Returned, 2, 1)
  {
  }
}
