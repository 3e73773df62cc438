/** The streaming read of both generations of `ReadStrategyStream.read`: the synchronous
    validation of the path, then, on each subscription, the read loop that emits one chunk per
    read. The stream is modelled by the chunks it emits and the way it ends. */
module ReadStream {
  import opened Wrappers
  import opened JavaInt
  import opened Failures
  import opened OpenOptions
  import opened Files
  import opened Configuration
  import ChannelProvider
  import Retry

  /** `com.reedelk.file.internal.read` catches every Throwable in the subscription body;
      the older `com.reedelk.file.read` catches only Exception. */
  datatype Generation = Current | Legacy

  /** How a subscription ends: the sink completes, the sink reports an error, or an exception
      escapes the subscription body. */
  datatype Terminal = Complete | Error(error: Failure) | Escaped(thrown: Failure)

  /** The checks made when `read` is called: a directory, or anything that is not a regular
      file, is rejected with a NotValidFileException before any stream exists. */
  function Validate(entry: FileEntry): (r: Option<Failure>)
    ensures r.None? <==> entry.Regular?
    ensures r == Some(NotValidFile(FileIsDirectory)) <==> entry.Directory?
    ensures r.Some? && !entry.Directory? ==> r == Some(NotValidFile(FileNotFound))
  {
    if entry.Directory? then Some(NotValidFile(FileIsDirectory))
    else if !entry.Regular? then Some(NotValidFile(FileNotFound))
    else None
  }

  /** The `catch` clauses of the subscription body, in order. */
  function MapReadFailure(generation: Generation, e: Failure): (t: Terminal)
    ensures t.Escaped? <==> generation == Legacy && e.Fatal?
    ensures t.Escaped? ==> t.thrown == e
    ensures t == Error(NotValidFile(FileNotFound)) <==> e == Io(NoSuchFile)
    ensures e.FileRead? ==> t == Error(e)
    ensures t == Error(FileRead(FileLockMaxRetryError)) <==> e == MaxRetriesExceeded || e == FileRead(FileLockMaxRetryError)
    ensures t.Error? && e != Io(NoSuchFile) ==> t.error.FileRead?
  {
    if e == Io(NoSuchFile) then Error(NotValidFile(FileNotFound))
    else if generation == Legacy && !IsException(e) then Escaped(e)
    else if e.FileRead? then Error(e)
    else if e == MaxRetriesExceeded then Error(FileRead(FileLockMaxRetryError))
    else Error(FileRead(FileReadError))
  }

  /** Every chunk holds between 1 and `size` bytes. */
  ghost predicate ChunksWithin(chunks: seq<seq<byte>>, size: int) {
    forall i :: 0 <= i < |chunks| ==> 1 <= |chunks[i]| <= size
  }

  /** Chunks of at least one byte that hold no byte at all are no chunks. */
  lemma {:induction false} NoBytesNoChunks(chunks: seq<seq<byte>>, size: int)
    requires ChunksWithin(chunks, size) && Flatten(chunks) == []
    ensures chunks == []
  {
  }

  /** The reads of the loop: `n` reads that returned bytes, then the read that ended the loop,
      which returned no byte or threw `last`. */
  function ReadLog(n: nat, last: Option<Failure>): (log: seq<ChannelCall>)
    ensures |log| == n + 1 && log[n] == ReadCall(last)
    ensures forall i :: 0 <= i < n ==> log[i] == ReadCall(None)
  {
    seq(n, _ => ReadCall(None)) + [ReadCall(last)]
  }

  /** The read loop: `while (channel.read(buffer) > 0)` emit a copy of the bytes read. The
      chunks so far are always the file's bytes up to the read position; each chunk is one read
      that returned bytes, and the loop ends at the first read that returns none or throws. */
  method ReadLoop(channel: Channel, size: nat) returns (chunks: seq<seq<byte>>, failure: Option<Failure>)
    requires channel.Valid() && channel.state != Closed && channel.pos == 0
    modifies channel`pos, channel`calls
    ensures channel.Valid() && ChunksWithin(chunks, size)
    ensures Flatten(chunks) == channel.base[..channel.pos]
    ensures channel.calls == old(channel.calls) + ReadLog(|chunks|, failure)
    ensures failure.None? && size > 0 ==> channel.pos == |channel.base|
    ensures failure.None? && size == 0 ==> chunks == []
    ensures failure.Some? ==> failure.value == Io(OtherIo)
  {
    var buffer := new byte[size];
    chunks := [];
    while true
      invariant channel.Valid() && ChunksWithin(chunks, size)
      invariant Flatten(chunks) == channel.base[..channel.pos]
      invariant channel.calls == old(channel.calls) + seq(|chunks|, _ => ReadCall(None))
      invariant size == 0 ==> chunks == []
      decreases |channel.base| - channel.pos
    {
      ghost var pos := channel.pos;
      var n, thrown := channel.Read(buffer);
      if thrown.Some? {
        return chunks, thrown;
      }
      if n <= 0 {
        break;
      }
      // byteBuffer.flip(); byteBuffer.get(chunk); sink.next(chunk); byteBuffer.clear()
      var chunk := buffer[..n];
      FlattenAppend(chunks, chunk);
      assert channel.base[..channel.pos] == channel.base[..pos] + channel.base[pos..channel.pos];
      assert seq(|chunks|, _ => ReadCall(None)) + [ReadCall(None)] == seq(|chunks| + 1, _ => ReadCall(None));
      chunks := chunks + [chunk];
    }
    failure := None;
  }

  /** The body of the try-with-resources block once the channel is handed out: allocate the
      buffer, run the read loop, complete, and close the channel on every path. `readFailure`
      is what ended the read loop. */
  method ReadAndClose(channel: Channel, size: int32, generation: Generation)
    returns (chunks: seq<seq<byte>>, terminal: Terminal, ghost readFailure: Option<Failure>)
    requires channel.Valid() && channel.state != Closed && channel.pos == 0
    modifies channel`pos, channel`calls, channel`state
    ensures channel.state == Closed && |channel.calls| > 0 && Last(channel.calls).CloseCall?
    ensures size < 0 ==>
              chunks == [] && terminal == MapReadFailure(generation, IllegalArgument) &&
              channel.calls == old(channel.calls) + [Last(channel.calls)]
    ensures size >= 0 ==>
              channel.calls == old(channel.calls) + ReadLog(|chunks|, readFailure) + [Last(channel.calls)] &&
              terminal == (if readFailure.None? then Complete else MapReadFailure(generation, readFailure.value))
    ensures Flatten(chunks) <= channel.base
    ensures terminal == Complete ==> ChunksWithin(chunks, size)
    ensures terminal == Complete && size > 0 ==> Flatten(chunks) == channel.base
    ensures terminal == Complete && (size <= 0 || channel.base == []) ==> chunks == []
    ensures chunks != [] && !terminal.Complete? ==> terminal == Error(FileRead(FileReadError))
  {
    readFailure := None;
    if size < 0 {
      // ByteBuffer.allocate throws IllegalArgumentException; the resource is closed first
      var _ := channel.Close();
      return [], MapReadFailure(generation, IllegalArgument), readFailure;
    }
    var failure;
    chunks, failure := ReadLoop(channel, size);
    readFailure := failure;
    var _ := channel.Close();
    if failure.None? && channel.base == [] {
      NoBytesNoChunks(chunks, size);
    }
    terminal := if failure.Some? then MapReadFailure(generation, failure.value) else Complete;
  }

  /** One subscription to the stream: open (and lock) the channel with the read options, read
      it in chunks of at most `config.readBufferSize` bytes, complete; a failure is mapped by
      `MapReadFailure`. The channel, once handed out, is closed on every path by
      try-with-resources; an exception from that close is suppressed, or dropped once the sink
      has completed. `fromError` is what `FileChannelProvider.from` threw, `lockCalls` the
      channel's calls when `from` handed it out, and `readFailure` what ended the read loop. */
  method Subscribe(entry: FileEntry, config: ReadConfiguration, generation: Generation,
                   env: seq<ChannelProvider.LockResponse>, interrupt: Option<nat>)
    returns (chunks: seq<seq<byte>>, terminal: Terminal, ghost created: Channel?,
             ghost fromError: Option<Failure>, ghost lockCalls: seq<ChannelCall>,
             ghost readFailure: Option<Failure>)
    requires ChannelProvider.Covers(env, config.retryMaxAttempts)
    ensures var options := FileOpenOptions(ReadOperation, config.lockType);
            OpenFile(entry, options).Failure? ==>
              created == null && fromError == Some(OpenFile(entry, options).error)
    ensures OpenFile(entry, FileOpenOptions(ReadOperation, config.lockType)).Success? ==>
              created != null && fresh(created)
    ensures created != null ==> created.base == entry.content && created.writes == []
    ensures created != null && config.lockType == NoLock ==> fromError == None && lockCalls == []
    ensures created != null && config.lockType == Lock ==>
              var run := ChannelProvider.LockRun(config.retryMaxAttempts, config.retryWaitTime, env, interrupt);
              run.calls <= |env| &&
              (run.ending == Retry.Returned ==>
                 fromError == None && lockCalls == ChannelProvider.LockLog(env, run.calls)) &&
              (run.ending.Threw? && !IsException(run.ending.e) ==>
                 fromError == Some(run.ending.e) && created.state != Closed) &&
              (run.ending.Threw? && IsException(run.ending.e) ==>
                 created.state == Closed && |created.calls| > 0 && Last(created.calls).CloseCall? &&
                 fromError == Some(NotSwallowed(Last(created.calls).closeThrew).OrElse(run.ending.e)))
    ensures fromError.Some? ==> chunks == [] && terminal == MapReadFailure(generation, fromError.value)
    ensures fromError.None? ==>
              created != null && created.state == Closed &&
              |created.calls| > 0 && Last(created.calls).CloseCall?
    ensures fromError.None? && config.readBufferSize < 0 ==>
              chunks == [] && terminal == MapReadFailure(generation, IllegalArgument) &&
              created.calls == lockCalls + [Last(created.calls)]
    ensures fromError.None? && config.readBufferSize >= 0 ==>
              created.calls == lockCalls + ReadLog(|chunks|, readFailure) + [Last(created.calls)] &&
              terminal == (if readFailure.None? then Complete else MapReadFailure(generation, readFailure.value))
    ensures created != null && created.state != Closed ==>
              chunks == [] && terminal == MapReadFailure(generation, Fatal)
    ensures terminal == Complete ==> created != null && created.state == Closed && ChunksWithin(chunks, config.readBufferSize)
    ensures terminal == Complete && config.readBufferSize > 0 ==> Flatten(chunks) == created.base
    ensures terminal == Complete && (config.readBufferSize <= 0 || created.base == []) ==> chunks == []
    ensures created != null ==> Flatten(chunks) <= created.base
    ensures chunks != [] && !terminal.Complete? ==> terminal == Error(FileRead(FileReadError))
    ensures config.readBufferSize < 0 && config.lockType == NoLock && entry.Regular? ==>
              chunks == [] && terminal == Error(FileRead(FileReadError)) && created != null && created.state == Closed
  {
    var options := FileOpenOptions(ReadOperation, config.lockType);
    var provided;
    provided, created := ChannelProvider.From(entry, config.lockType, config.retryMaxAttempts,
                                            config.retryWaitTime, options, env, interrupt);
    chunks, lockCalls, readFailure := [], [], None;
    if provided.Failure? {
      fromError := Some(provided.error);
      terminal := MapReadFailure(generation, provided.error);
      return;
    }
    fromError := None;
    var channel := provided.value;
    lockCalls := channel.calls;
    chunks, terminal, readFailure := ReadAndClose(channel, config.readBufferSize, generation);
  }
}
