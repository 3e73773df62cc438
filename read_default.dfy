/** The eager read of `com.reedelk.file.internal.read.ReadStrategyDefault.read`: open a
    `RandomAccessFile`, lock it when asked to, read the whole file with one read into a buffer
    of the file's size, and in `finally` release the lock and then close the channel. */
module ReadDefault {
  import opened Wrappers
  import opened JavaInt
  import opened Failures
  import opened OpenOptions
  import opened Files

  /** The `RandomAccessFile` mode: "rw" (read-write) exactly when locking. */
  function ReadWriteMode(lockType: LockType): (rw: bool)
    ensures rw <==> lockType == Lock
  {
    lockType == Lock
  }

  /** `catch (IOException)`: an IOException becomes a FileReadException with the read error
      message, any other exception goes on unchanged. */
  function MapIOException(e: Failure): (r: Failure)
    ensures IsIOException(e) <==> r == FileRead(FileReadError) && e != r
    ensures !IsIOException(e) ==> r == e
  {
    if IsIOException(e) then FileRead(FileReadError) else e
  }

  /** The calls the `finally` block makes: release the lock if one was obtained, then close the
      channel, unless an exception other than an IOException escaped the release. */
  function FinallyLog(locked: bool, releaseThrew: Option<Failure>, closeThrew: Option<Failure>): (log: seq<ChannelCall>)
    ensures |log| >= 1
    ensures log[0].ReleaseCall? <==> locked
    ensures CloseCall(closeThrew) in log <==> !locked || NotSwallowed(releaseThrew).None?
    ensures locked && |log| == 2 ==> log[1] == CloseCall(closeThrew)
  {
    (if locked then [ReleaseCall(releaseThrew)] else [])
    + (if locked && NotSwallowed(releaseThrew).Some? then [] else [CloseCall(closeThrew)])
  }

  /** The exception the `finally` block throws, if any, which replaces the outcome of the
      `try` block. */
  function FinallyThrew(locked: bool, releaseThrew: Option<Failure>, closeThrew: Option<Failure>): (r: Option<Failure>)
    ensures r.Some? ==> !IsIOException(r.value)
    ensures r.None? <==> (!locked || NotSwallowed(releaseThrew).None?) && NotSwallowed(closeThrew).None?
  {
    if locked && NotSwallowed(releaseThrew).Some? then NotSwallowed(releaseThrew)
    else NotSwallowed(closeThrew)
  }

  /** The calls the `try` block makes on the channel: `lock()` when locking, then, unless it
      threw, `size()`, then, unless that threw or `(int) size` is negative, the one `read`. */
  function TryLog(lockType: LockType, lockThrew: Option<Failure>, sizeThrew: Option<Failure>,
                  size: int, readThrew: Option<Failure>): (log: seq<ChannelCall>)
    ensures |log| >= 1 ==> (log[0].LockCall? <==> lockType == Lock)
    ensures lockType == Lock ==> |log| >= 1 && log[0] == LockCall(lockThrew)
    ensures ReadCall(readThrew) in log <==>
              (lockType == Lock ==> lockThrew.None?) && sizeThrew.None? && Wrap32(size) >= 0
  {
    (if lockType == Lock then [LockCall(lockThrew)] else [])
    + (if lockType == Lock && lockThrew.Some? then []
       else [SizeCall(sizeThrew)] + (if sizeThrew.Some? || Wrap32(size) < 0 then [] else [ReadCall(readThrew)]))
  }

  /** The exception the `try` block ends with, if any: the first failing step, an IOException
      becoming a FileReadException; `ByteBuffer.allocate` rejects a negative `(int) size`. */
  function TryFailure(lockType: LockType, lockThrew: Option<Failure>, sizeThrew: Option<Failure>,
                      size: int, readThrew: Option<Failure>): (r: Option<Failure>)
    ensures r.None? <==>
              (lockType == Lock ==> lockThrew.None?) && sizeThrew.None? && Wrap32(size) >= 0 && readThrew.None?
    ensures r.Some? ==> r.value.FileRead? || !IsIOException(r.value)
    ensures lockType == Lock && lockThrew.Some? ==> r == Some(MapIOException(lockThrew.value))
  {
    if lockType == Lock && lockThrew.Some? then Some(MapIOException(lockThrew.value))
    else if sizeThrew.Some? then Some(MapIOException(sizeThrew.value))
    else if Wrap32(size) < 0 then Some(IllegalArgument)
    else if readThrew.Some? then Some(MapIOException(readThrew.value))
    else None
  }

  /** The `try` block on the opened channel: lock when asked to, take the size, allocate a
      buffer of `(int) size` bytes and read once into it. `lockThrew`, `sizeThrew` and
      `readThrew` are what those calls threw, and `read` what the read returned. */
  method TryRead(channel: Channel, lockType: LockType)
    returns (outcome: Result<seq<byte>, Failure>, locked: bool, ghost lockThrew: Option<Failure>,
             ghost sizeThrew: Option<Failure>, ghost readThrew: Option<Failure>, ghost read: int)
    requires channel.Valid() && channel.state == Open && channel.pos == 0
    requires channel.writes == [] && channel.calls == [] && |channel.base| < 0x8000_0000_0000_0000
    modifies channel`state, channel`calls, channel`pos
    ensures locked <==> lockType == Lock && lockThrew.None?
    ensures channel.state == (if locked then Locked else Open)
    ensures channel.calls == TryLog(lockType, lockThrew, sizeThrew, |channel.base|, readThrew)
    ensures var tried := TryFailure(lockType, lockThrew, sizeThrew, |channel.base|, readThrew);
            (outcome.Success? <==> tried.None?) && (tried.Some? ==> outcome == Failure(tried.value))
    ensures outcome.Success? ==>
              |outcome.value| == Wrap32(|channel.base|) &&
              0 <= read <= |outcome.value| && outcome.value[..read] == channel.base[..read] &&
              (forall i :: read <= i < |outcome.value| ==> outcome.value[i] == 0) &&
              (|outcome.value| > 0 ==> read >= 1)
  {
    lockThrew, sizeThrew, readThrew, read := None, None, None, 0;
    locked := false;
    var lockFailure: Option<Failure> := None;
    if lockType == Lock {
      lockFailure := channel.Lock();
      locked := lockFailure.None?;
      lockThrew := lockFailure;
    }
    if lockFailure.Some? {
      return Failure(MapIOException(lockFailure.value)), locked, lockThrew, sizeThrew, readThrew, read;
    }
    var size, sizeFailure := channel.Size();
    sizeThrew := sizeFailure;
    if sizeFailure.Some? {
      return Failure(MapIOException(sizeFailure.value)), locked, lockThrew, sizeThrew, readThrew, read;
    }
    var fileSize := Wrap32(size);
    if fileSize < 0 {
      // ByteBuffer.allocate rejects a negative capacity
      return Failure(IllegalArgument), locked, lockThrew, sizeThrew, readThrew, read;
    }
    var buffer := new byte[fileSize](_ => 0);
    var n, readFailure := channel.Read(buffer);
    readThrew := readFailure;
    if readFailure.Some? {
      outcome := Failure(MapIOException(readFailure.value));
    } else {
      read := if n < 0 then 0 else n;
      outcome := Success(buffer[..]);
    }
  }

  /** The `finally` block: release the lock if one was obtained, then close the channel; an
      IOException of either is swallowed, and another exception escaping the release skips
      the close. */
  method Finally(channel: Channel, locked: bool)
    returns (releaseThrew: Option<Failure>, closeThrew: Option<Failure>)
    requires channel.state == (if locked then Locked else Open)
    modifies channel`state, channel`calls
    ensures channel.calls == old(channel.calls) + FinallyLog(locked, releaseThrew, closeThrew)
    ensures !locked || NotSwallowed(releaseThrew).None? ==> channel.state == Closed
  {
    releaseThrew, closeThrew := None, None;
    if locked {
      releaseThrew := channel.Release();
    }
    if !(locked && NotSwallowed(releaseThrew).Some?) {
      closeThrew := channel.Close();
    }
  }

  /** The whole read: the bytes returned, or the failure thrown. `created` is the channel
      opened, if any; the other ghost results are what the calls on it threw, and what the
      single read returned. */
  method Read(entry: FileEntry, lockType: LockType)
    returns (r: Result<seq<byte>, Failure>, ghost created: Channel?,
             ghost lockThrew: Option<Failure>, ghost sizeThrew: Option<Failure>,
             ghost readThrew: Option<Failure>, ghost read: int,
             ghost releaseThrew: Option<Failure>, ghost closeThrew: Option<Failure>)
    requires entry.Regular? ==> |entry.content| < 0x8000_0000_0000_0000
    ensures created == null <==> OpenRandomAccess(entry, ReadWriteMode(lockType)).Failure?
    ensures created == null ==> r == Failure(FileRead(FileReadError))
    ensures created != null ==>
              created.base == OpenRandomAccess(entry, ReadWriteMode(lockType)).value
    ensures created != null ==>
              var locked := lockType == Lock && lockThrew.None?;
              var tried := TryFailure(lockType, lockThrew, sizeThrew, |created.base|, readThrew);
              var finallyThrew := FinallyThrew(locked, releaseThrew, closeThrew);
              created.calls == TryLog(lockType, lockThrew, sizeThrew, |created.base|, readThrew)
                               + FinallyLog(locked, releaseThrew, closeThrew) &&
              (finallyThrew.Some? ==> r == Failure(finallyThrew.value)) &&
              (finallyThrew.None? ==> (r.Success? <==> tried.None?) &&
                                      (tried.Some? ==> r == Failure(tried.value))) &&
              (!locked || NotSwallowed(releaseThrew).None? ==> created.state == Closed)
    ensures r.Success? ==>
              created != null && created.state == Closed &&
              |r.value| == Wrap32(|created.base|) &&
              0 <= read <= |r.value| && r.value[..read] == created.base[..read] &&
              (forall i :: read <= i < |r.value| ==> r.value[i] == 0) &&
              (|r.value| > 0 ==> read >= 1)
    ensures r.Failure? && created != null ==>
              r.error.FileRead? || !IsIOException(r.error)
  {
    var file := OpenRandomAccess(entry, ReadWriteMode(lockType));
    created, lockThrew, sizeThrew, readThrew, read, releaseThrew, closeThrew := null, None, None, None, 0, None, None;
    if file.Failure? {
      return Failure(MapIOException(file.error)), created, lockThrew, sizeThrew, readThrew, read, releaseThrew, closeThrew;
    }
    var channel := new Channel(Opened(file.value, false));
    created := channel;
    var outcome, locked;
    outcome, locked, lockThrew, sizeThrew, readThrew, read := TryRead(channel, lockType);
    var released, closed := Finally(channel, locked);
    releaseThrew, closeThrew := released, closed;
    var finallyThrew := FinallyThrew(locked, released, closed);
    r := if finallyThrew.Some? then Failure(finallyThrew.value) else outcome;
  }
}
