/** The writer's resource handling: the state `Initial` carried through the reduction of the
    upstream chunks, the accumulator that slices each chunk into the buffer and writes it,
    `cleanUp` and `mapException`. */
module Writer {
  import opened Wrappers
  import opened JavaInt
  import opened Failures
  import opened OpenOptions
  import opened Files
  import opened Configuration
  import ChannelProvider
  import Retry

  /** The pieces of `chunk` the accumulator writes with a buffer of `b` bytes: consecutive
      pieces of `b` bytes, the last one possibly shorter. */
  function Slices(chunk: seq<byte>, b: int): (r: seq<seq<byte>>)
    ensures r == [] <==> b <= 0 || chunk == []
    decreases |chunk|
  {
    if b <= 0 || chunk == [] then []
    else
      var n := Min(|chunk|, b);
      [chunk[..n]] + Slices(chunk[n..], b)
  }

  /** Writing the slices in order writes the chunk: their concatenation is the chunk. */
  lemma {:induction false} SlicesConcatenate(chunk: seq<byte>, b: int)
    requires b > 0
    ensures Flatten(Slices(chunk, b)) == chunk
    decreases |chunk|
  {
    if chunk != [] {
      var n := Min(|chunk|, b);
      SlicesConcatenate(chunk[n..], b);
      assert Slices(chunk, b)[1..] == Slices(chunk[n..], b);
      assert chunk == chunk[..n] + chunk[n..];
    }
  }

  lemma MulSign(b: int, d: int)
    requires b > 0
    ensures d >= 1 ==> b * d >= b
    ensures d <= -1 ==> b * d <= -b
  {
  }

  /** Division is determined by quotient and remainder. */
  lemma DivUnique(x: int, b: int, q: int, r: int)
    requires b > 0 && 0 <= r < b && x == b * q + r
    ensures x / b == q
  {
    var d := q - x / b;
    assert b * d == b * q - b * (x / b);
    MulSign(b, d);
  }

  lemma DivStep(x: int, b: int)
    requires b > 0 && x >= 0
    ensures (x + b) / b == x / b + 1
  {
    DivUnique(x + b, b, x / b + 1, x % b);
  }

  lemma DivOne(x: int, b: int)
    requires b <= x < 2 * b
    ensures x / b == 1
  {
    DivUnique(x, b, 1, x - b);
  }

  /** There are ceil(n / b) slices. */
  lemma {:induction false} SlicesCount(chunk: seq<byte>, b: int)
    requires b > 0
    ensures |Slices(chunk, b)| == (|chunk| + b - 1) / b
    decreases |chunk|
  {
    if chunk != [] {
      var n := Min(|chunk|, b);
      SlicesCount(chunk[n..], b);
      if |chunk| <= b {
        DivOne(|chunk| + b - 1, b);
      } else {
        DivStep(|chunk| - b + b - 1, b);
      }
    }
  }

  /** Every slice has between 1 and b bytes, and every slice but the last exactly b. */
  lemma {:induction false} SlicesBounds(chunk: seq<byte>, b: int)
    ensures var s := Slices(chunk, b);
            forall i :: 0 <= i < |s| ==> 1 <= |s[i]| <= b && (i < |s| - 1 ==> |s[i]| == b)
    decreases |chunk|
  {
    if b > 0 && chunk != [] {
      var n := Min(|chunk|, b);
      SlicesBounds(chunk[n..], b);
      var s := Slices(chunk, b);
      forall i | 0 <= i < |s|
        ensures 1 <= |s[i]| <= b && (i < |s| - 1 ==> |s[i]| == b)
      {
        if i > 0 {
          assert s[i] == Slices(chunk[n..], b)[i - 1];
        } else if |s| > 1 {
          assert n == b;
        }
      }
    }
  }

  /** The slices of the chunks of a stream, chunk after chunk. */
  function StreamSlices(chunks: seq<seq<byte>>, b: int): (r: seq<seq<byte>>)
  {
    if chunks == [] then [] else Slices(chunks[0], b) + StreamSlices(chunks[1..], b)
  }

  /** The bytes reach the channel in upstream order: what is written is the stream's content. */
  lemma {:induction false} StreamWrittenInOrder(chunks: seq<seq<byte>>, b: int)
    requires b > 0
    ensures Flatten(StreamSlices(chunks, b)) == Flatten(chunks)
  {
    if chunks != [] {
      StreamWrittenInOrder(chunks[1..], b);
      FlattenConcat(Slices(chunks[0], b), StreamSlices(chunks[1..], b));
      SlicesConcatenate(chunks[0], b);
    }
  }

  lemma {:induction false} StreamSlicesAppend(chunks: seq<seq<byte>>, c: seq<byte>, b: int)
    ensures StreamSlices(chunks + [c], b) == StreamSlices(chunks, b) + Slices(c, b)
  {
    if chunks == [] {
      assert chunks + [c] == [c];
    } else {
      assert (chunks + [c])[1..] == chunks[1..] + [c];
      StreamSlicesAppend(chunks[1..], c, b);
    }
  }

  /** The slices of the first `k` chunks come first among the slices of the stream. */
  lemma {:induction false} StreamSlicesPrefix(chunks: seq<seq<byte>>, k: nat, b: int)
    requires k <= |chunks|
    ensures StreamSlices(chunks[..k], b) <= StreamSlices(chunks, b)
  {
    if k > 0 {
      assert chunks[..k][1..] == chunks[1..][..k - 1];
      StreamSlicesPrefix(chunks[1..], k - 1, b);
    }
  }

  /** What a stream of chunks leaves in the file, by write mode: the stream's bytes, after the
      file's former content when appending; creating a new file refuses an existing one. */
  lemma WriteModeContent(mode: WriteMode, entry: FileEntry, chunks: seq<seq<byte>>, b: int)
    requires b > 0
    ensures OpenFile(entry, Options(mode)).Success? ==>
              var written := Flatten(StreamSlices(chunks, b));
              ContentAfter(OpenFile(entry, Options(mode)).value, written)
                == (if mode == AppendMode && entry.Regular? then entry.content + Flatten(chunks) else Flatten(chunks))
    ensures OpenFile(entry, Options(mode)).Success? <==>
              (entry.Regular? && mode != CreateNewMode) || (entry.Missing? && entry.parentExists)
  {
    StreamWrittenInOrder(chunks, b);
    WriteModeOpening(mode, entry);
  }

  /** The pair of buffer and channel the reduction carries. */
  class Initial {
    var buffer: array?<byte>
    var fileChannel: Channel?

    constructor (buffer: array<byte>, fileChannel: Channel)
      ensures this.buffer == buffer && this.fileChannel == fileChannel
    {
      this.buffer := buffer;
      this.fileChannel := fileChannel;
    }
  }

  /** The initial state of the reduction: open (and lock) the channel, then allocate the
      buffer. A negative buffer size makes `ByteBuffer.allocate` throw IllegalArgumentException
      once the channel is open, and the channel is left open: nothing refers to it any more. */
  method NewInitial(config: WriteConfiguration, entry: FileEntry,
                    env: seq<ChannelProvider.LockResponse>, interrupt: Option<nat>)
    returns (r: Result<Initial, Failure>, ghost created: Channel?)
    requires ChannelProvider.Covers(env, config.retryMaxAttempts)
    ensures OpenFile(entry, Options(config.writeMode)).Failure? ==>
              created == null && r == Failure(OpenFile(entry, Options(config.writeMode)).error)
    ensures OpenFile(entry, Options(config.writeMode)).Success? ==> created != null && fresh(created)
    ensures OpenFile(entry, Options(config.writeMode)).Success? && config.lockType == NoLock &&
            config.writeBufferSize >= 0 ==>
              r.Success? && created.state == Open && created.calls == []
    ensures OpenFile(entry, Options(config.writeMode)).Success? && config.lockType == Lock ==>
              var run := ChannelProvider.LockRun(config.retryMaxAttempts, config.retryWaitTime, env, interrupt);
              run.calls <= |env| &&
              (run.ending == Retry.Returned && config.writeBufferSize >= 0 ==>
                 r.Success? && created.calls == ChannelProvider.LockLog(env, run.calls)) &&
              (run.ending.Threw? && !IsException(run.ending.e) ==> r == Failure(run.ending.e)) &&
              (run.ending.Threw? && IsException(run.ending.e) ==>
                 created.state == Closed && |created.calls| == run.calls + 1 && Last(created.calls).CloseCall? &&
                 r == Failure(NotSwallowed(Last(created.calls).closeThrew).OrElse(run.ending.e)))
    ensures r.Success? ==> created != null && r.value.fileChannel == created &&
                           r.value.buffer != null && fresh(r.value.buffer) &&
                           r.value.buffer.Length == config.writeBufferSize &&
                           created.state != Closed && created.writes == []
    ensures OpenFile(entry, Options(config.writeMode)).Success? && config.writeBufferSize < 0 &&
            config.lockType == NoLock ==>
              r == Failure(IllegalArgument) && created != null && created.state == Open && created.calls == []
    ensures OpenFile(entry, Options(config.writeMode)).Success? && config.writeBufferSize < 0 &&
            config.lockType == Lock ==>
              var run := ChannelProvider.LockRun(config.retryMaxAttempts, config.retryWaitTime, env, interrupt);
              run.calls <= |env| &&
              (run.ending == Retry.Returned ==>
                 r == Failure(IllegalArgument) && created.state != Closed &&
                 created.calls == ChannelProvider.LockLog(env, run.calls))
    ensures r.Failure? && created != null && created.state != Closed && IsException(r.error) ==>
              config.writeBufferSize < 0 && r.error == IllegalArgument
  {
    var channel;
    channel, created := ChannelProvider.From(entry, config.lockType, config.retryMaxAttempts,
                                             config.retryWaitTime, Options(config.writeMode), env, interrupt);
    if channel.Failure? {
      return Failure(channel.error), created;
    }
    if config.writeBufferSize < 0 {
      return Failure(IllegalArgument), created;
    }
    var buffer := new byte[config.writeBufferSize];
    var initial := new Initial(buffer, channel.value);
    r := Success(initial);
  }

  /** The initial state as evidently intended: the channel is closed silently when the buffer
      cannot be allocated, so that a failure never leaves it open. */
  method NewInitialClosing(config: WriteConfiguration, entry: FileEntry,
                           env: seq<ChannelProvider.LockResponse>, interrupt: Option<nat>)
    returns (r: Result<Initial, Failure>, ghost created: Channel?)
    requires ChannelProvider.Covers(env, config.retryMaxAttempts)
    ensures OpenFile(entry, Options(config.writeMode)).Failure? ==>
              created == null && r == Failure(OpenFile(entry, Options(config.writeMode)).error)
    ensures OpenFile(entry, Options(config.writeMode)).Success? ==> created != null && fresh(created)
    ensures OpenFile(entry, Options(config.writeMode)).Success? && config.lockType == NoLock &&
            config.writeBufferSize >= 0 ==>
              r.Success? && created.state == Open && created.calls == []
    ensures OpenFile(entry, Options(config.writeMode)).Success? && config.lockType == Lock ==>
              var run := ChannelProvider.LockRun(config.retryMaxAttempts, config.retryWaitTime, env, interrupt);
              run.calls <= |env| &&
              (run.ending == Retry.Returned && config.writeBufferSize >= 0 ==>
                 r.Success? && created.calls == ChannelProvider.LockLog(env, run.calls)) &&
              (run.ending.Threw? && !IsException(run.ending.e) ==> r == Failure(run.ending.e)) &&
              (run.ending.Threw? && IsException(run.ending.e) ==>
                 created.state == Closed && |created.calls| == run.calls + 1 && Last(created.calls).CloseCall? &&
                 r == Failure(NotSwallowed(Last(created.calls).closeThrew).OrElse(run.ending.e)))
    ensures r.Success? ==> created != null && r.value.fileChannel == created &&
                           r.value.buffer != null && fresh(r.value.buffer) &&
                           r.value.buffer.Length == config.writeBufferSize &&
                           created.state != Closed && created.writes == []
    ensures r.Failure? && created != null ==> created.state == Closed || !IsException(r.error)
    ensures OpenFile(entry, Options(config.writeMode)).Success? && config.writeBufferSize < 0 &&
            config.lockType == NoLock ==>
              created.state == Closed && |created.calls| == 1 && created.calls[0].CloseCall? &&
              r == Failure(NotSwallowed(created.calls[0].closeThrew).OrElse(IllegalArgument))
    ensures OpenFile(entry, Options(config.writeMode)).Success? && config.writeBufferSize < 0 &&
            config.lockType == Lock ==>
              var run := ChannelProvider.LockRun(config.retryMaxAttempts, config.retryWaitTime, env, interrupt);
              run.calls <= |env| &&
              (run.ending == Retry.Returned ==>
                 created.state == Closed && |created.calls| == run.calls + 1 &&
                 created.calls[..run.calls] == ChannelProvider.LockLog(env, run.calls) &&
                 Last(created.calls).CloseCall? &&
                 r == Failure(NotSwallowed(Last(created.calls).closeThrew).OrElse(IllegalArgument)))
  {
    var channel;
    channel, created := ChannelProvider.From(entry, config.lockType, config.retryMaxAttempts,
                                             config.retryWaitTime, Options(config.writeMode), env, interrupt);
    if channel.Failure? {
      return Failure(channel.error), created;
    }
    if config.writeBufferSize < 0 {
      var escaped := CloseSilently(channel.value);
      return Failure(escaped.OrElse(IllegalArgument)), created;
    }
    var buffer := new byte[config.writeBufferSize];
    var initial := new Initial(buffer, channel.value);
    r := Success(initial);
  }

  /** The configuration does not reject a negative buffer size, so `NewInitial` can meet one. */
  lemma NegativeBufferSizeAccepted(mode: Option<WriteMode>)
    ensures NewWriteConfiguration(Some(FileWriteConfiguration(None, None, None, None, Some(-1))), mode)
              .writeBufferSize == -1
  {
  }

  /** `cleanUp`: null-safe; drops the buffer, closes the channel silently and drops it. An
      exception other than an IOException escaping the close propagates before the channel is
      dropped. Once both are dropped a further call does nothing: the method is idempotent. */
  method CleanUp(initial: Initial?) returns (escaped: Option<Failure>)
    modifies initial
    modifies if initial != null && initial.fileChannel != null then {initial.fileChannel} else {}
    ensures initial == null ==> escaped == None
    ensures initial != null ==> initial.buffer == null
    ensures initial != null && old(initial.fileChannel) == null ==> escaped == None && initial.fileChannel == null
    ensures initial != null && old(initial.fileChannel) != null ==>
              var c := old(initial.fileChannel);
              c.state == Closed && |c.calls| == |old(c.calls)| + 1 && Last(c.calls).CloseCall? &&
              c.calls[..|old(c.calls)|] == old(c.calls) && c.writes == old(c.writes) &&
              escaped == NotSwallowed(Last(c.calls).closeThrew) &&
              initial.fileChannel == (if escaped.None? then null else c)
  {
    escaped := None;
    if initial != null {
      initial.buffer := null;
      escaped := CloseSilently(initial.fileChannel);
      if escaped.None? {
        initial.fileChannel := null;
      }
    }
  }

  /** One step of the accumulator on the bytes from `reached` on. */
  lemma SliceStep(chunk: seq<byte>, reached: nat, b: int)
    requires reached < |chunk| && b > 0
    ensures var length := Min(|chunk| - reached, b);
            && Slices(chunk[reached..], b)
               == [chunk[reached..reached + length]] + Slices(chunk[Min(reached + b, |chunk|)..], b)
  {
    var length := Min(|chunk| - reached, b);
    assert chunk[reached..][..length] == chunk[reached..reached + length];
    assert chunk[reached..][length..] == chunk[Min(reached + b, |chunk|)..];
  }

  /** What the loop has written, followed by the slices still to come, is every slice of the
      chunk; this stays so when the next slice is written. */
  lemma SlicesStillToCome(total: seq<seq<byte>>, written: seq<seq<byte>>, after: seq<seq<byte>>,
                          chunk: seq<byte>, reached: nat, b: int, length: nat, next: nat)
    requires reached < |chunk| && b > 0 && next == Min(reached + b, |chunk|)
    requires length == Min(|chunk| - reached, b)
    requires total == written + Slices(chunk[reached..], b)
    requires after == written + [chunk[reached..reached + length]]
    ensures total == after + Slices(chunk[next..], b)
  {
    SliceStep(chunk, reached, b);
    var piece := chunk[reached..reached + length];
    var rest := Slices(chunk[next..], b);
    assert Slices(chunk[reached..], b) == [piece] + rest;
    assert written + ([piece] + rest) == (written + [piece]) + rest;
  }

  /** While a byte is left, not every slice has been written. */
  lemma SlicesAhead(total: seq<seq<byte>>, written: seq<seq<byte>>, rest: seq<byte>, b: int)
    requires rest != [] && b > 0 && total == written + Slices(rest, b)
    ensures written < total
  {
  }

  /** `offset += bufferLength; remaining = chunk.length - offset` in `int` arithmetic: the
      offset may wrap, but the remaining count comes out exact. */
  lemma OffsetStep(n: int, reached: int, b: int)
    requires 0 <= reached < n < TWO_31 && 0 < b < TWO_31
    ensures Wrap32(n - Wrap32(reached + b)) == n - (reached + b)
    ensures reached + b < n ==> Wrap32(reached + b) == reached + b
  {
    var offset := Wrap32(reached + b);
    assert offset == reached + b || offset == reached + b - TWO_32;
    if offset != reached + b {
      Wrap32Periodic(n - (reached + b));
      assert n - offset == (n - (reached + b)) + TWO_32;
    }
  }

  /** `buffer.clear(); buffer.put(chunk, offset, length); buffer.flip(); channel.write(buffer)` */
  method PutAndWrite(channel: Channel, buffer: array<byte>, chunk: seq<byte>, offset: nat, length: nat)
    returns (failure: Option<Failure>)
    requires 0 < length <= buffer.Length && offset + length <= |chunk| && channel.state != Closed
    modifies buffer, channel`writes
    ensures failure.None? ==> channel.writes == old(channel.writes) + [chunk[offset..offset + length]]
    ensures failure.Some? ==> channel.writes == old(channel.writes) && failure.value == Io(OtherIo)
  {
    forall i | 0 <= i < length {
      buffer[i] := chunk[offset + i];
    }
    assert buffer[..length] == chunk[offset..offset + length];
    failure := channel.WriteAll(buffer[..length]);
  }

  /** The loop of the accumulator for one upstream chunk: put at most `bufferLength` bytes of
      the chunk into the buffer, write them, advance by `bufferLength`, until no byte is left.
      The offset and the remaining count are Java `int`s: once the offset passes 2^31 - 1 it
      wraps, and the remaining count wraps back to the true value, which is then not
      positive. A failing write ends the loop after the slices written so far. */
  method WriteSlices(channel: Channel, buffer: array<byte>, chunk: seq<byte>, bufferLength: int32)
    returns (failure: Option<Failure>)
    requires buffer.Length == bufferLength && channel.state != Closed && |chunk| < TWO_31
    modifies buffer, channel`writes
    ensures failure.None? ==> channel.writes == old(channel.writes) + Slices(chunk, bufferLength)
    ensures failure.Some? ==>
              failure.value == Io(OtherIo) &&
              old(channel.writes) <= channel.writes < old(channel.writes) + Slices(chunk, bufferLength)
  {
    ghost var before := channel.writes;
    ghost var total := before + Slices(chunk, bufferLength);
    ghost var n := |chunk|;
    ghost var pos: nat := 0;
    var offset: int32 := 0;
    var remaining: int32;
    var length: int32 := Min(|chunk|, bufferLength);
    while length > 0
      invariant pos <= n && (length > 0 ==> bufferLength > 0 && pos < n)
      invariant pos < n ==> offset == pos && length == Min(n - pos, bufferLength)
      invariant pos == n ==> length <= 0
      invariant before <= channel.writes
      invariant total == channel.writes + Slices(chunk[pos..], bufferLength)
      decreases n - pos
    {
      ghost var next := Min(pos + bufferLength, n);
      ghost var written := channel.writes;
      SlicesAhead(total, written, chunk[pos..], bufferLength);
      failure := PutAndWrite(channel, buffer, chunk, offset, length);
      if failure.Some? {
        return;
      }
      SlicesStillToCome(total, written, channel.writes, chunk, offset, bufferLength, length, next);
      OffsetStep(n, pos, bufferLength);
      offset := Wrap32(offset + bufferLength);
      remaining := Wrap32(|chunk| - offset);
      length := Min(remaining, bufferLength);
      pos := next;
    }
    assert chunk[pos..] == [] || bufferLength <= 0;
    failure := None;
  }

  /** The accumulator for one upstream chunk: `WriteSlices`, and on a failure `cleanUp` before
      the failure propagates (an exception escaping the close replaces it). */
  method Accumulate(initial: Initial, chunk: seq<byte>, bufferLength: int32) returns (thrown: Option<Failure>)
    requires initial.buffer != null && initial.fileChannel != null
    requires initial.buffer.Length == bufferLength && initial.fileChannel.state != Closed
    requires |chunk| < TWO_31
    modifies initial, initial.buffer, initial.fileChannel
    ensures thrown.None? ==>
              initial.buffer == old(initial.buffer) && initial.fileChannel == old(initial.fileChannel) &&
              initial.fileChannel.writes == old(initial.fileChannel.writes) + Slices(chunk, bufferLength) &&
              initial.fileChannel.state == old(initial.fileChannel.state) &&
              initial.fileChannel.calls == old(initial.fileChannel.calls)
    ensures thrown.Some? ==>
              var c := old(initial.fileChannel);
              old(c.writes) <= c.writes < old(c.writes) + Slices(chunk, bufferLength) &&
              c.state == Closed && initial.buffer == null &&
              |c.calls| > 0 && Last(c.calls).CloseCall? &&
              thrown == Some(NotSwallowed(Last(c.calls).closeThrew).OrElse(Io(OtherIo)))
  {
    var failure := WriteSlices(initial.fileChannel, initial.buffer, chunk, bufferLength);
    if failure.Some? {
      var escaped := CleanUp(initial);
      return Some(escaped.OrElse(failure.value));
    }
    thrown := None;
  }

  /** The accumulator applied to each upstream chunk in turn, as the reduction does; the first
      failure ends it. */
  method AccumulateAll(initial: Initial, chunks: seq<seq<byte>>, bufferLength: int32) returns (thrown: Option<Failure>)
    requires initial.buffer != null && initial.fileChannel != null
    requires initial.buffer.Length == bufferLength && initial.fileChannel.state != Closed
    requires forall i :: 0 <= i < |chunks| ==> |chunks[i]| < TWO_31
    modifies initial, initial.buffer, initial.fileChannel
    ensures thrown.None? ==>
              initial.fileChannel == old(initial.fileChannel) && initial.buffer == old(initial.buffer) &&
              initial.fileChannel.writes == old(initial.fileChannel.writes) + StreamSlices(chunks, bufferLength) &&
              initial.fileChannel.state == old(initial.fileChannel.state) &&
              initial.fileChannel.calls == old(initial.fileChannel.calls)
    ensures thrown.Some? ==>
              var c := old(initial.fileChannel);
              old(c.writes) <= c.writes < old(c.writes) + StreamSlices(chunks, bufferLength) &&
              c.state == Closed && initial.buffer == null &&
              |c.calls| > 0 && Last(c.calls).CloseCall? &&
              thrown == Some(NotSwallowed(Last(c.calls).closeThrew).OrElse(Io(OtherIo)))
  {
    var k := 0;
    while k < |chunks|
      invariant 0 <= k <= |chunks|
      invariant initial.buffer == old(initial.buffer) && initial.fileChannel == old(initial.fileChannel)
      invariant initial.fileChannel.state == old(initial.fileChannel.state)
      invariant initial.fileChannel.calls == old(initial.fileChannel.calls)
      invariant initial.fileChannel.writes == old(initial.fileChannel.writes) + StreamSlices(chunks[..k], bufferLength)
    {
      ghost var done := StreamSlices(chunks[..k], bufferLength);
      StreamSlicesAppend(chunks[..k], chunks[k], bufferLength);
      assert chunks[..k + 1] == chunks[..k] + [chunks[k]];
      StreamSlicesPrefix(chunks, k + 1, bufferLength);
      thrown := Accumulate(initial, chunks[k], bufferLength);
      if thrown.Some? {
        ghost var c := old(initial.fileChannel);
        assert old(c.writes) + done + Slices(chunks[k], bufferLength)
            <= old(c.writes) + StreamSlices(chunks, bufferLength);
        return;
      }
      k := k + 1;
    }
    assert chunks[..k] == chunks;
    thrown := None;
  }

  /** `mapException`: the failure reported to the caller, classified in order. */
  function MapException(e: Failure): (r: Failure)
    ensures r.NotValidFile? || r.FileWrite?
    ensures r == NotValidFile(ErrorFileNotFound) <==> e == Io(NoSuchFile)
    ensures r == FileWrite(FileLockMaxRetryError) <==> e == MaxRetriesExceeded
    ensures r == FileWrite(ErrorFileWriteAlreadyExists) <==> e == Io(FileAlreadyExists)
    ensures r == FileWrite(ErrorFileWriteWithPath) <==>
              e !in {Io(NoSuchFile), MaxRetriesExceeded, Io(FileAlreadyExists)}
  {
    if e == Io(NoSuchFile) then NotValidFile(ErrorFileNotFound)
    else if e == MaxRetriesExceeded then FileWrite(FileLockMaxRetryError)
    else if e == Io(FileAlreadyExists) then FileWrite(ErrorFileWriteAlreadyExists)
    else FileWrite(ErrorFileWriteWithPath)
  }
}
