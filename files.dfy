/** The file system and the file channel as the module sees them: a path's entry, the outcome
    of opening it, and a `FileChannel` whose state is open, locked or closed. The operating
    system's choices (how many bytes a read returns, whether a call fails) are left open with
    `:|`, so every contract below holds whatever the system does. */
module Files {
  import opened Wrappers
  import opened JavaInt
  import opened Failures
  import opened OpenOptions

  /** Java `byte` */
  type byte = b: int | -128 <= b < 128

  /** What a path names. */
  datatype FileEntry = Missing(parentExists: bool) | Directory | Regular(content: seq<byte>)

  /** A successfully opened file: its content at opening and whether writes append. */
  datatype Opened = Opened(content: seq<byte>, append: bool)

  /** `FileChannel.open(path, options)`: a missing file is created only when asked to and its
      parent exists; `CREATE_NEW` refuses an existing file; `TRUNCATE_EXISTING` empties a file
      opened for writing. Opening a directory is an IOException. */
  function OpenFile(entry: FileEntry, options: seq<OpenOption>): (r: Result<Opened, Failure>)
    ensures r.Failure? ==> r.error.Io?
    ensures entry.Missing? && r.Success? ==> r.value.content == []
  {
    var writable := Write in options || Append in options;
    match entry
    case Directory =>
      if writable && CreateNew in options then Failure(Io(FileAlreadyExists)) else Failure(Io(OtherIo))
    case Missing(parentExists) =>
      if writable && (Create in options || CreateNew in options) && parentExists
      then Success(Opened([], Append in options))
      else Failure(Io(NoSuchFile))
    case Regular(content) =>
      if writable && CreateNew in options then Failure(Io(FileAlreadyExists))
      else Success(Opened(if writable && TruncateExisting in options then [] else content, Append in options))
  }

  /** What each write mode does to an existing file, and to a missing one. */
  lemma WriteModeOpening(mode: WriteMode, entry: FileEntry)
    ensures entry.Regular? && mode == CreateNewMode ==>
              OpenFile(entry, Options(mode)) == Failure(Io(FileAlreadyExists))
    ensures entry.Regular? && mode == Overwrite ==>
              OpenFile(entry, Options(mode)) == Success(Opened([], false))
    ensures entry.Regular? && mode == AppendMode ==>
              OpenFile(entry, Options(mode)) == Success(Opened(entry.content, true))
    ensures entry.Missing? ==>
              OpenFile(entry, Options(mode)) ==
                (if entry.parentExists then Success(Opened([], mode == AppendMode)) else Failure(Io(NoSuchFile)))
  {
  }

  /** `new RandomAccessFile(file, mode)`: mode "rw" creates a missing file whose parent
      exists; anything else that is not a regular file is a FileNotFoundException. */
  function OpenRandomAccess(entry: FileEntry, readWrite: bool): (r: Result<seq<byte>, Failure>)
    ensures r.Failure? ==> r.error == Io(FileNotFoundIo)
    ensures entry.Regular? ==> r == Success(entry.content)
  {
    match entry
    case Regular(content) => Success(content)
    case Missing(parentExists) =>
      if readWrite && parentExists then Success([]) else Failure(Io(FileNotFoundIo))
    case Directory => Failure(Io(FileNotFoundIo))
  }

  /** All the bytes of `chunks`, in order. */
  function Flatten(chunks: seq<seq<byte>>): (r: seq<byte>)
  {
    if chunks == [] then [] else chunks[0] + Flatten(chunks[1..])
  }

  lemma {:induction false} FlattenAppend(chunks: seq<seq<byte>>, c: seq<byte>)
    ensures Flatten(chunks + [c]) == Flatten(chunks) + c
  {
    if chunks != [] {
      assert (chunks + [c])[1..] == chunks[1..] + [c];
      FlattenAppend(chunks[1..], c);
    }
  }

  lemma {:induction false} FlattenConcat(a: seq<seq<byte>>, b: seq<seq<byte>>)
    ensures Flatten(a + b) == Flatten(a) + Flatten(b)
  {
    if a == [] {
      assert a + b == b;
    } else {
      assert (a + b)[1..] == a[1..] + b;
      FlattenConcat(a[1..], b);
    }
  }

  /** The file's content once `written` has been written through a channel opened as `file`:
      appended to the end, or over the bytes from the start. */
  function ContentAfter(file: Opened, written: seq<byte>): (r: seq<byte>)
    ensures |r| == if file.append then |file.content| + |written| else Max(|written|, |file.content|)
    ensures file.append ==> r[..|file.content|] == file.content && r[|file.content|..] == written
    ensures !file.append ==> r[..|written|] == written && r[|written|..] == file.content[Min(|written|, |file.content|)..]
  {
    if file.append then file.content + written
    else written + file.content[Min(|written|, |file.content|)..]
  }

  function Max(a: int, b: int): int {
    if a >= b then a else b
  }

  datatype ChannelState = Open | Locked | Closed

  /** The calls made on a channel other than writes, with the exception each threw. */
  datatype ChannelCall = LockCall(lockThrew: Option<Failure>)
                       | ReleaseCall(releaseThrew: Option<Failure>)
                       | CloseCall(closeThrew: Option<Failure>)
                       | SizeCall(sizeThrew: Option<Failure>)
                       | ReadCall(readThrew: Option<Failure>)

  /** The exception that `closeSilently` lets through: anything but an IOException. */
  function NotSwallowed(thrown: Option<Failure>): (r: Option<Failure>)
    ensures r.Some? <==> thrown.Some? && !IsIOException(thrown.value)
    ensures r.Some? ==> r == thrown
  {
    if thrown.Some? && !IsIOException(thrown.value) then thrown else None
  }

  function Last<T>(s: seq<T>): T
    requires |s| > 0
  {
    s[|s| - 1]
  }

  /** A `java.nio.channels.FileChannel` on one file. */
  class Channel {
    /** the file's content when the channel was opened */
    const base: seq<byte>
    /** whether writes go to the end of the file */
    const append: bool
    var state: ChannelState
    /** the read position */
    var pos: nat
    /** the buffers passed to `write`, in call order */
    var writes: seq<seq<byte>>
    /** lock, release, close, size and read calls, in order */
    var calls: seq<ChannelCall>

    ghost predicate Valid()
      reads this
    {
      pos <= |base|
    }

    constructor (file: Opened)
      ensures Valid() && state == Open
      ensures base == file.content && append == file.append
      ensures pos == 0 && writes == [] && calls == []
    {
      base, append := file.content, file.append;
      state, pos, writes, calls := Open, 0, [], [];
    }

    /** `read(buffer)` into an empty buffer of `buf.Length` bytes: 0 when the buffer has no
        room, -1 at the end of the file, otherwise between 1 and as many bytes as fit and
        remain; or an IOException. */
    method Read(buf: array<byte>) returns (n: int, thrown: Option<Failure>)
      requires Valid() && state != Closed
      modifies this`pos, this`calls, buf
      ensures Valid()
      ensures calls == old(calls) + [ReadCall(thrown)]
      ensures thrown.Some? ==> thrown.value == Io(OtherIo) && pos == old(pos) && buf[..] == old(buf[..])
      ensures thrown.None? ==> forall i :: (if n > 0 then n else 0) <= i < buf.Length ==> buf[i] == old(buf[i])
      ensures thrown.None? && buf.Length == 0 ==> n == 0 && pos == old(pos)
      ensures thrown.None? && buf.Length > 0 && old(pos) == |base| ==> n == -1 && pos == old(pos)
      ensures thrown.None? && buf.Length > 0 && old(pos) < |base| ==>
                1 <= n <= Min(buf.Length, |base| - old(pos)) && pos == old(pos) + n &&
                buf[..n] == base[old(pos)..pos]
    {
      var fails: bool :| true;
      if fails {
        calls := calls + [ReadCall(Some(Io(OtherIo)))];
        return 0, Some(Io(OtherIo));
      }
      thrown := None;
      calls := calls + [ReadCall(None)];
      if buf.Length == 0 {
        n := 0;
      } else if pos == |base| {
        n := -1;
      } else {
        var avail := |base| - pos;
        var most := Min(buf.Length, avail);
        assert most <= buf.Length;
        var k: int :| 1 <= k <= most;
        assert k <= buf.Length && pos + k <= |base|;
        forall i | 0 <= i < k {
          buf[i] := base[pos + i];
        }
        n, pos := k, pos + k;
      }
    }

    /** `write(buffer)`: the whole buffer is written (the returned count is not modelled), or
        an IOException. */
    method WriteAll(data: seq<byte>) returns (thrown: Option<Failure>)
      requires state != Closed
      modifies this`writes
      ensures thrown.None? ==> writes == old(writes) + [data]
      ensures thrown.Some? ==> writes == old(writes) && thrown.value == Io(OtherIo)
    {
      var fails: bool :| true;
      if fails {
        thrown := Some(Io(OtherIo));
      } else {
        thrown := None;
        writes := writes + [data];
      }
    }

    /** `size()`, or an IOException. */
    method Size() returns (size: int64, thrown: Option<Failure>)
      requires state != Closed && writes == [] && |base| < 0x8000_0000_0000_0000
      modifies this`calls
      ensures calls == old(calls) + [SizeCall(thrown)]
      ensures thrown.None? ==> size == |base|
      ensures thrown.Some? ==> thrown.value == Io(OtherIo)
    {
      var fails: bool :| true;
      if fails {
        size, thrown := 0, Some(Io(OtherIo));
      } else {
        size, thrown := |base|, None;
      }
      calls := calls + [SizeCall(thrown)];
    }

    /** `lock()`: blocks until the lock is granted. A second lock from the same JVM throws
        OverlappingFileLockException; the call may also throw an IOException or another
        unchecked exception. */
    method Lock() returns (thrown: Option<Failure>)
      requires state != Closed
      modifies this`state, this`calls
      ensures calls == old(calls) + [LockCall(thrown)]
      ensures old(state) == Locked ==> thrown == Some(OverlappingFileLock)
      ensures thrown.None? <==> state == Locked && old(state) == Open
      ensures thrown.Some? ==> state == old(state)
    {
      if state == Locked {
        thrown := Some(OverlappingFileLock);
      } else {
        thrown :| true;
        if thrown.None? {
          state := Locked;
        }
      }
      calls := calls + [LockCall(thrown)];
    }

    /** Several `lock()` calls in a row, logged in `log`: the lock is held afterwards exactly
        when one of them returned, and a call after that one overlaps the lock. This is the
        effect of calling `Lock` once per entry of `log`, stated for the whole sequence:
        `FileChannelProvider.from` applies the log of its retry command's calls here, and
        `ChannelProvider.LockLogConsistent` shows that log keeps `Lock`'s rule that every call
        after a granted one overlaps it. */
    method LockCalls(log: seq<ChannelCall>)
      requires state == Open
      requires forall i :: 0 <= i < |log| ==> log[i].LockCall?
      requires forall i, j :: 0 <= i < j < |log| && log[i] == LockCall(None) ==>
                 log[j] == LockCall(Some(OverlappingFileLock))
      modifies this`state, this`calls
      ensures calls == old(calls) + log
      ensures state == (if LockCall(None) in log then Locked else Open)
    {
      calls := calls + log;
      if LockCall(None) in log {
        state := Locked;
      }
    }

    /** `lock.release()`: the lock is released, or the call throws and it is kept. */
    method Release() returns (thrown: Option<Failure>)
      requires state == Locked
      modifies this`state, this`calls
      ensures calls == old(calls) + [ReleaseCall(thrown)]
      ensures state == (if thrown.None? then Open else Locked)
    {
      thrown :| true;
      if thrown.None? {
        state := Open;
      }
      calls := calls + [ReleaseCall(thrown)];
    }

    /** `close()`: the channel is closed (and its lock released) even when the call throws. */
    method Close() returns (thrown: Option<Failure>)
      modifies this`state, this`calls
      ensures state == Closed
      ensures calls == old(calls) + [CloseCall(thrown)]
    {
      thrown :| true;
      state := Closed;
      calls := calls + [CloseCall(thrown)];
    }
  }

  /** `CloseableUtils.closeSilently`: nothing for null; otherwise exactly one `close()`, whose
      IOException is swallowed while any other exception goes on. */
  method CloseSilently(c: Channel?) returns (escaped: Option<Failure>)
    modifies c
    ensures c == null ==> escaped == None
    ensures c != null ==> c.state == Closed && |c.calls| == |old(c.calls)| + 1
    ensures c != null ==> c.pos == old(c.pos) && c.writes == old(c.writes)
    ensures c != null ==> c.calls[..|old(c.calls)|] == old(c.calls) && Last(c.calls).CloseCall?
    ensures c != null ==> escaped == NotSwallowed(Last(c.calls).closeThrew)
  {
    escaped := None;
    if c != null {
      var thrown := c.Close();
      assert c.calls[..|old(c.calls)|] == old(c.calls);
      escaped := NotSwallowed(thrown);
    }
  }
}
