/** `FileChannelProvider.from`: open a file channel and, when asked to, lock it through a
    retry command that retries on OverlappingFileLockException. */
module ChannelProvider {
  import opened Wrappers
  import opened JavaInt
  import opened Failures
  import opened OpenOptions
  import opened Files
  import Retry

  /** What the operating system and the rest of the JVM make `channel.lock()` do on a call, as
      long as this channel holds no lock: grant it, report a lock held by another channel of
      the JVM (OverlappingFileLockException), or throw `e`. */
  datatype LockResponse = Granted | Contended | Raises(e: Failure)

  /** What call `i` of `channel.lock()` throws. Once a call has been granted the channel holds
      the lock, and every later call overlaps it. */
  function LockThrew(env: seq<LockResponse>, i: nat): (r: Option<Failure>)
    requires i < |env|
    ensures r.None? <==> env[i] == Granted && Granted !in env[..i]
  {
    if Granted in env[..i] then Some(OverlappingFileLock)
    else match env[i]
      case Granted => None
      case Contended => Some(OverlappingFileLock)
      case Raises(e) => Some(e)
  }

  /** The supplier of the retry command: `channel.lock()`, with an IOException turned into a
      FileReadException carrying the lock error message. */
  function LockOutcome(env: seq<LockResponse>, i: nat): (r: Retry.Outcome)
    requires i < |env|
    ensures r == Retry.Returns <==> LockThrew(env, i).None?
    ensures r.Throws? && IsIOException(LockThrew(env, i).value) ==> r.e == FileRead(FileLockError)
    ensures r.Throws? && !IsIOException(LockThrew(env, i).value) ==> r.e == LockThrew(env, i).value
  {
    match LockThrew(env, i)
    case None => Retry.Returns
    case Some(e) => Retry.Throws(if IsIOException(e) then FileRead(FileLockError) else e)
  }

  function LockSupplier(env: seq<LockResponse>): (s: seq<Retry.Outcome>)
    ensures |s| == |env| && forall i :: 0 <= i < |env| ==> s[i] == LockOutcome(env, i)
  {
    seq(|env|, i requires 0 <= i < |env| => LockOutcome(env, i))
  }

  /** The channel's log of the first `n` lock calls. */
  function LockLog(env: seq<LockResponse>, n: nat): (r: seq<ChannelCall>)
    requires n <= |env|
    ensures |r| == n && forall i :: 0 <= i < n ==> r[i] == LockCall(LockThrew(env, i))
  {
    seq(n, i requires 0 <= i < n => LockCall(LockThrew(env, i)))
  }

  /** The log is one the channel can produce: only the first grant succeeds, and every call
      after it overlaps; the lock is held exactly when a response granted it. */
  lemma LockLogConsistent(env: seq<LockResponse>, n: nat)
    requires n <= |env|
    ensures forall i, j :: 0 <= i < j < n && LockLog(env, n)[i] == LockCall(None) ==>
              LockLog(env, n)[j] == LockCall(Some(OverlappingFileLock))
    ensures LockCall(None) in LockLog(env, n) <==> Granted in env[..n]
  {
    var log := LockLog(env, n);
    forall i, j | 0 <= i < j < n && log[i] == LockCall(None)
      ensures log[j] == LockCall(Some(OverlappingFileLock))
    {
      assert env[..j][i] == Granted;
    }
    if Granted in env[..n] {
      var g :| 0 <= g < n && env[g] == Granted;
      var f := First(env, g);
      assert log[f] == LockCall(None);
    }
  }

  /** The index of the first grant at or before `g`. */
  function First(env: seq<LockResponse>, g: nat): (f: nat)
    requires g < |env| && env[g] == Granted
    ensures f <= g && env[f] == Granted && Granted !in env[..f]
  {
    if Granted in env[..g] then
      var h :| 0 <= h < g && env[h] == Granted;
      assert env[..g][..h] == env[..h];
      First(env, h)
    else g
  }

  /** The command `from` builds: retry on OverlappingFileLockException. */
  function LockCommand(retryMaxAttempts: int32, retryWaitTime: int64): (cmd: Retry.RetryCommand)
    ensures cmd.retryOn == Some(OverlappingFileLockClass)
    ensures cmd.maxRetries == retryMaxAttempts && cmd.waitTime == retryWaitTime
  {
    Retry.RetryCommand(retryWaitTime, retryMaxAttempts, Some(OverlappingFileLockClass))
  }

  /** The run of the lock command. */
  function LockRun(retryMaxAttempts: int32, retryWaitTime: int64, env: seq<LockResponse>,
                   interrupt: Option<nat>): Retry.Run
  {
    Retry.ExecuteRun(LockCommand(retryMaxAttempts, retryWaitTime), LockSupplier(env), interrupt)
  }

  /** Enough responses for every call the command can make. */
  predicate Covers(env: seq<LockResponse>, retryMaxAttempts: int32) {
    |env| >= 2 && |env| >= retryMaxAttempts + 2
  }

  lemma {:induction false} NoReturns(s: seq<Retry.Outcome>)
    requires forall i :: 0 <= i < |s| ==> s[i] != Retry.Returns
    ensures Retry.ReturnsCount(s) == 0
  {
    if s != [] {
      NoReturns(s[1..]);
    }
  }

  lemma {:induction false} AtMostOneReturns(s: seq<Retry.Outcome>)
    requires forall i, j :: 0 <= i < j < |s| && s[i] == Retry.Returns ==> s[j] != Retry.Returns
    ensures Retry.ReturnsCount(s) <= 1
  {
    if s != [] {
      if s[0] == Retry.Returns {
        NoReturns(s[1..]);
      } else {
        AtMostOneReturns(s[1..]);
      }
    }
  }

  /** The lock supplier returns normally at most once: only the first grant returns. */
  lemma SupplierReturnsAtMostOnce(env: seq<LockResponse>, from: nat)
    requires from <= |env|
    ensures Retry.ReturnsCount(LockSupplier(env)[from..]) <= 1
  {
    var s := LockSupplier(env)[from..];
    forall i, j | 0 <= i < j < |s| && s[i] == Retry.Returns
      ensures s[j] != Retry.Returns
    {
      assert env[..from + j][from + i] == env[from + i];
    }
    AtMostOneReturns(s);
  }

  /** With a response for each call the command can make, the lock run always ends by
      returning or by throwing. */
  lemma LockRunFinishes(retryMaxAttempts: int32, retryWaitTime: int64, env: seq<LockResponse>,
                        interrupt: Option<nat>)
    requires Covers(env, retryMaxAttempts)
    ensures LockRun(retryMaxAttempts, retryWaitTime, env, interrupt).ending != Retry.OutOfOutcomes
    ensures LockRun(retryMaxAttempts, retryWaitTime, env, interrupt).calls <= |env|
  {
    var cmd := LockCommand(retryMaxAttempts, retryWaitTime);
    var s := LockSupplier(env);
    SupplierReturnsAtMostOnce(env, 1);
    Retry.LoopFinishes(cmd, s, interrupt, 1, 0, 0);
    Retry.ExecuteCallsBounded(cmd, s, interrupt);
  }

  /** A lock granted on the first call: one call, the lock is held. */
  lemma FirstGrantLocks(retryMaxAttempts: int32, retryWaitTime: int64, env: seq<LockResponse>,
                        interrupt: Option<nat>)
    requires |env| >= 1 && env[0] == Granted
    ensures LockRun(retryMaxAttempts, retryWaitTime, env, interrupt) == Retry.Run(Retry.Returned, 1, 0)
    ensures LockLog(env, 1) == [LockCall(None)]
  {
    assert LockSupplier(env)[0] == LockOutcome(env, 0);
  }

  /** With `retryMaxAttempts <= 0`, a lock held elsewhere on the first call is not waited for:
      the command returns normally after one call and the channel is handed out unlocked. */
  lemma NoRetriesReturnsUnlocked(retryMaxAttempts: int32, retryWaitTime: int64, env: seq<LockResponse>,
                                 interrupt: Option<nat>)
    requires retryMaxAttempts <= 0
    requires |env| >= 1 && env[0] == Contended
    ensures LockRun(retryMaxAttempts, retryWaitTime, env, interrupt) == Retry.Run(Retry.Returned, 1, 0)
    ensures LockLog(env, 1) == [LockCall(Some(OverlappingFileLock))]
  {
    assert LockSupplier(env)[0] == LockOutcome(env, 0);
  }

  /** A lock granted on retry `k` is not kept: the next call overlaps the lock this very channel
      now holds, and the command goes on until MaxRetriesExceeded, after which `from` closes
      the channel. */
  lemma GrantOnRetryIsLost(retryMaxAttempts: int32, retryWaitTime: int64, env: seq<LockResponse>, k: nat)
    requires retryWaitTime >= 0 && 1 <= k <= retryMaxAttempts
    requires |env| >= retryMaxAttempts + 2
    requires forall i :: 0 <= i < k ==> env[i] == Contended
    requires env[k] == Granted
    ensures LockRun(retryMaxAttempts, retryWaitTime, env, None)
         == Retry.Run(Retry.Threw(MaxRetriesExceeded), retryMaxAttempts as nat + 2, retryMaxAttempts as nat + 1)
    ensures LockLog(env, retryMaxAttempts as nat + 2)[k] == LockCall(None)
  {
    var cmd := LockCommand(retryMaxAttempts, retryWaitTime);
    var s := LockSupplier(env);
    forall i | 0 <= i < |s| && i != k
      ensures Retry.RetryableFailure(cmd, s[i])
    {
      if i < k {
        assert env[i] == Contended && Granted !in env[..i];
      } else {
        assert env[..i][k] == Granted;
      }
    }
    assert env[..k] == env[..k];
    assert Granted !in env[..k];
    Retry.SuccessInLoopIsLost(cmd, s, k);
  }

  /** `FileChannelProvider.from`. The channel is opened with `options`; with `Lock` the
      command of `LockCommand` locks it. If the command throws an Exception the channel is
      closed silently and the exception rethrown (an exception escaping the close replaces
      it); a java.lang.Error is not caught and leaves the channel open. `created` is the
      channel created, if any. */
  method From(entry: FileEntry, lockType: LockType, retryMaxAttempts: int32, retryWaitTime: int64,
              options: seq<OpenOption>, env: seq<LockResponse>, interrupt: Option<nat>)
    returns (r: Result<Channel, Failure>, ghost created: Channel?)
    requires Covers(env, retryMaxAttempts)
    ensures OpenFile(entry, options).Failure? ==>
              created == null && r == Failure(OpenFile(entry, options).error)
    ensures OpenFile(entry, options).Success? ==>
              created != null && fresh(created) && created.Valid() && created.writes == [] &&
              created.base == OpenFile(entry, options).value.content &&
              created.append == OpenFile(entry, options).value.append
    ensures r.Success? ==> created != null && r.value == created && created.state != Closed &&
                           created.pos == 0 && created.Valid() && created.writes == []
    ensures r.Failure? && created != null ==> created.state == Closed || !IsException(r.error)
    ensures OpenFile(entry, options).Success? && lockType == NoLock ==>
              r == Success(created) && created.state == Open && created.calls == []
    ensures OpenFile(entry, options).Success? && lockType == Lock ==>
              var run := LockRun(retryMaxAttempts, retryWaitTime, env, interrupt);
              run.calls <= |env| &&
              (run.ending == Retry.Returned ==>
                 r == Success(created) &&
                 created.calls == LockLog(env, run.calls) &&
                 created.state == (if Granted in env[..run.calls] then Locked else Open)) &&
              (run.ending.Threw? && !IsException(run.ending.e) ==>
                 r == Failure(run.ending.e) && created.state != Closed) &&
              (run.ending.Threw? && IsException(run.ending.e) ==>
                 created.state == Closed && |created.calls| == run.calls + 1 &&
                 created.calls[..run.calls] == LockLog(env, run.calls) &&
                 Last(created.calls).CloseCall? &&
                 r == Failure(NotSwallowed(Last(created.calls).closeThrew).OrElse(run.ending.e)))
  {
    var file := OpenFile(entry, options);
    if file.Failure? {
      return Failure(file.error), null;
    }
    var channel := new Channel(file.value);
    created := channel;
    if lockType == NoLock {
      return Success(channel), channel;
    }
    var builder := new Retry.Builder();
    builder.MaxRetries(retryMaxAttempts);
    builder.WaitTime(retryWaitTime);
    builder.RetryOn(OverlappingFileLockClass);
    var cmd := builder.Build();
    LockRunFinishes(retryMaxAttempts, retryWaitTime, env, interrupt);
    var run := Retry.Execute(cmd, LockSupplier(env), interrupt);
    LockLogConsistent(env, run.calls);
    channel.LockCalls(LockLog(env, run.calls));
    if run.ending.Threw? {
      var e := run.ending.e;
      if IsException(e) {
        var escaped := CloseSilently(channel);
        r := Failure(escaped.OrElse(e));
      } else {
        r := Failure(e);
      }
    } else {
      r := Success(channel);
    }
  }
}
