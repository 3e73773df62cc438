# Resource-safe file access of the reedelk file module, in Dafny

This project models the part of the reedelk file module (a file read/write component of an
integration runtime) that opens, locks, reads, writes and closes files:

- the bounded retry command used to wait for a file lock (`RetryCommand`), with its builder;
- the channel provider that opens a `FileChannel` and locks it through that command, closing
  the channel when locking fails (`FileChannelProvider`, both package generations), and
  `CloseableUtils.closeSilently`;
- the open-option tables (`FileOpenOptions`, `WriteMode`);
- the writer's accumulator, which slices every upstream chunk into buffer-sized writes, its
  `cleanUp`, its `mapException` and the creation of its initial state (`Writer`);
- the streaming read (`ReadStrategyStream`, both generations) and the eager locked read
  (`internal/read/ReadStrategyDefault`);
- the configuration overlay (`WriteConfiguration`, the two `ReadConfigurationDecorator`s and
  `Defaults`).

The file system is a value (`Files.FileEntry`), and a file channel is a class (`Files.Channel`)
whose state is open, locked or closed, with a log of its lock, release, close, size and read calls.
Whatever the operating system decides (how many bytes a read returns, whether a write, a
release or a close throws) is left open in the channel's methods. So every contract holds
for every such choice. The retry command's supplier is the sequence of outcomes of its
successive calls. Lock contention is given as one `LockResponse` per call. Java `int`
arithmetic is modelled with explicit 32-bit truncation (`JavaInt.Wrap32`).

Modules: `Wrappers`, `JavaInt`, `Failures` (exceptions as values, messages as tags),
`OpenOptions`, `Retry`, `Files`, `ChannelProvider`, `Defaults`, `Configuration`, `Writer`,
`ReadStream`, `ReadDefault`.

Where the code and the documented behaviour differ, the model follows the code. Two
differences matter:

- The retry loop does not stop after a successful call. A lock obtained on a retry is
  therefore lost, and the command ends in MaxRetriesExceeded (see Findings).
- With a retry limit of 0 or less, a lock held elsewhere is not waited for. The channel is
  then returned unlocked.

## Model

| member | source | states |
|---|---|---|
| Retry.Builder.constructor | src/main/java/com/reedelk/file/commons/RetryCommand.java:83-88 | a new builder has wait time 0, no retries and no exception class (Java field defaults) |
| Retry.Builder.RetryOn | src/main/java/com/reedelk/file/commons/RetryCommand.java:95-98 | sets the retried class and leaves the other settings unchanged |
| Retry.Builder.WaitTime | src/main/java/com/reedelk/file/commons/RetryCommand.java:100-103 | sets the wait time and leaves the other settings unchanged |
| Retry.Builder.MaxRetries | src/main/java/com/reedelk/file/commons/RetryCommand.java:105-108 | sets the retry limit and leaves the other settings unchanged |
| Retry.Builder.Build | src/main/java/com/reedelk/file/commons/RetryCommand.java:110-112 | the command carries exactly the builder's settings |
| Retry.Caught | src/main/java/com/reedelk/file/commons/RetryCommand.java:56-79 | the loop goes on exactly when the exception is not an interrupt, is retryable, and one more attempt stays below the limit |
| Retry.Execute | src/main/java/com/reedelk/file/commons/RetryCommand.java:28-42 | the run of `execute` is the run of the specification `ExecuteRun` |
| Retry.RetryAfterFirstFailure | src/main/java/com/reedelk/file/commons/RetryCommand.java:44-81 | the `while` loop over attempts computes the specification `RetryLoop` from its initial state |
| Retry.FirstCallReturns | src/main/java/com/reedelk/file/commons/RetryCommand.java:28-31 | a first call that returns ends the command after one call and no sleep |
| Retry.FirstFailureRethrown | src/main/java/com/reedelk/file/commons/RetryCommand.java:32-40 | a non-retryable first exception is rethrown unchanged after one call, with no sleep |
| Retry.NoRetriesSwallowsFailure | src/main/java/com/reedelk/file/commons/RetryCommand.java:44-48 | with a limit of 0 or less, a retryable first failure is swallowed and the command returns normally |
| Retry.LoopFailureWrapped | src/main/java/com/reedelk/file/commons/RetryCommand.java:74-76 | a non-retryable exception inside the loop is wrapped in an ESBException |
| Retry.InterruptStops | src/main/java/com/reedelk/file/commons/RetryCommand.java:52-58 | with a wait time of 0 or more, an interrupted sleep throws an ESBException and no further call is made |
| Retry.NegativeWaitTimeWrapped | src/main/java/com/reedelk/file/commons/RetryCommand.java:52-76 | a negative wait time makes the first sleep throw IllegalArgumentException, even when the thread is interrupted, and the command ends with it wrapped in an ESBException |
| Retry.LoopSleepsExhaust | src/main/java/com/reedelk/file/commons/RetryCommand.java:48-70 | with a negative wait time and retryOn Exception, every sleep counts an attempt: MaxRetriesExceeded after the remaining attempts are used up, with no further call |
| Retry.NegativeWaitTimeExhausts | src/main/java/com/reedelk/file/commons/RetryCommand.java:28-81 | with a negative wait time and retryOn Exception, a retryable first failure ends in MaxRetriesExceeded after one call and maxRetries sleeps, interrupted or not |
| Retry.LoopExhausts | src/main/java/com/reedelk/file/commons/RetryCommand.java:62-70 | each retryable failure counts one attempt, and the failure reaching the limit throws MaxRetriesExceeded after exactly as many calls and sleeps as attempts were left |
| Retry.AllFailuresExhaust | src/main/java/com/reedelk/file/commons/RetryCommand.java:46-70 | if every call fails retryably, there are 1 + limit calls and limit sleeps, then MaxRetriesExceeded |
| Retry.LoopNeverReturns | src/main/java/com/reedelk/file/commons/RetryCommand.java:48-80 | from any loop state below the limit the loop does not end normally |
| Retry.RetryEndsOnlyByThrowing | src/main/java/com/reedelk/file/commons/RetryCommand.java:48-54 | once the loop is entered with a limit of at least 1, `execute` ends only by throwing |
| Retry.LoopCountsFailures | src/main/java/com/reedelk/file/commons/RetryCommand.java:60-70 | when the loop throws MaxRetriesExceeded, its calls held exactly the number of retryable failures it had attempts left for |
| Retry.ExhaustionCountsMaxRetries | src/main/java/com/reedelk/file/commons/RetryCommand.java:44-70 | MaxRetriesExceeded means that the calls after the first failed retryably exactly `maxRetries` times |
| Retry.LoopFinishes | src/main/java/com/reedelk/file/commons/RetryCommand.java:46-80 | the loop needs no more outcomes than the attempts it can still absorb plus the normal returns among them |
| Retry.LoopCallsBounded | src/main/java/com/reedelk/file/commons/RetryCommand.java:48-80 | the loop makes no more calls than it was given outcomes |
| Retry.ExecuteCallsBounded | src/main/java/com/reedelk/file/commons/RetryCommand.java:28-42 | `execute` makes no more calls than it was given outcomes |
| Retry.LoopAbsorbsFailures | src/main/java/com/reedelk/file/commons/RetryCommand.java:60-72 | a run of retryable failures below the limit advances calls, attempts and sleeps by one each per failure, and does nothing else |
| Retry.SuccessInLoopIsLost | src/main/java/com/reedelk/file/commons/RetryCommand.java:48-80 | a call that returns on retry k (1 <= k <= limit), followed by retryable failures, still ends in MaxRetriesExceeded after limit + 2 calls |
| Retry.IntendedLoopSucceeds | src/main/java/com/reedelk/file/commons/RetryCommand.java:48-80 | in the corrected loop, a call that returns after retryable failures below the limit ends the loop normally |
| Retry.IntendedRetrySucceeds | src/main/java/com/reedelk/file/commons/RetryCommand.java:44-81 | in the corrected command, a limit of R tolerates R retryable failures before a normal return |
| Retry.WrittenLosesSuccess | src/main/java/com/reedelk/file/commons/RetryCommand.java:48-80 | concrete case (limit 1: failure, success, failure): the code as written throws MaxRetriesExceeded; the corrected loop returns after 2 calls |
| OpenOptions.FileOpenOptions | src/main/java/de/codecentric/reedelk/file/internal/commons/FileOpenOptions.java:10-18 | never empty and only READ/WRITE; READ exactly when locking or reading; WRITE exactly when locking or not reading; locking gives exactly READ, WRITE |
| OpenOptions.Options | src/main/java/de/codecentric/reedelk/file/internal/write/WriteMode.java:11-40 | every mode has WRITE and no READ; APPEND only for append, CREATE_NEW only for create-new, TRUNCATE_EXISTING only for overwrite, CREATE for every mode except create-new |
| OpenOptions.OptionsConsistent | src/main/java/de/codecentric/reedelk/file/internal/write/WriteMode.java:11-40 | no mode has both APPEND and TRUNCATE_EXISTING, or both CREATE and CREATE_NEW |
| OpenOptions.LockTakesPrecedence | src/main/java/de/codecentric/reedelk/file/internal/commons/FileOpenOptions.java:11-12 | with a lock, the operation does not change the options |
| Files.OpenFile | src/main/java/de/codecentric/reedelk/file/internal/commons/FileChannelProvider.java:19 | opening fails only with an IOException; a missing file, when it is created, is empty; a regular file always opens unless CREATE_NEW refuses it (permissions are not modelled) |
| Files.WriteModeOpening | src/main/java/de/codecentric/reedelk/file/internal/write/WriteMode.java:11-40 | create-new refuses an existing file, overwrite empties it, append keeps its content; a missing file is created exactly when its parent exists |
| Files.OpenRandomAccess | src/main/java/com/reedelk/file/internal/read/ReadStrategyDefault.java:36 | a regular file opens with its content; anything else fails with FileNotFoundException, except a missing file in "rw" mode whose parent exists |
| Files.ContentAfter | src/main/java/com/reedelk/file/internal/write/Writer.java:82 | appending places the written bytes after the old content; otherwise they replace the old bytes from the start |
| Files.NotSwallowed | src/main/java/de/codecentric/reedelk/file/internal/commons/CloseableUtils.java:15-20 | an exception gets through exactly when it is not an IOException |
| Files.Channel.constructor | src/main/java/de/codecentric/reedelk/file/internal/commons/FileChannelProvider.java:19 | a new channel is open, at position 0, with nothing written and no calls logged |
| Files.Channel.Read | src/main/java/com/reedelk/file/internal/read/ReadStrategyStream.java:58 | 0 for an empty buffer, -1 at the end of the file, otherwise 1 to min(room, remaining) bytes, copied from the read position; the rest of the buffer is untouched; the call and what it threw are logged |
| Files.Channel.WriteAll | src/main/java/com/reedelk/file/internal/write/Writer.java:82 | the whole buffer is written, or an IOException and nothing is written |
| Files.Channel.Size | src/main/java/com/reedelk/file/internal/read/ReadStrategyDefault.java:44 | the size is the file's length, or an IOException; the call is logged |
| Files.Channel.Lock | src/main/java/com/reedelk/file/internal/read/ReadStrategyDefault.java:40-42 | a second lock on the same channel throws OverlappingFileLockException; the lock is held exactly when the call returns |
| Files.Channel.LockCalls | src/main/java/de/codecentric/reedelk/file/internal/commons/FileChannelProvider.java:25-31 | the calls are logged in order, and the channel is locked exactly when one of them returned (the effect of one `Lock` per entry) |
| Files.Channel.Release | src/main/java/com/reedelk/file/internal/read/ReadStrategyDefault.java:70-76 | the lock is released unless the call throws; the call is logged |
| Files.Channel.Close | src/main/java/de/codecentric/reedelk/file/internal/commons/CloseableUtils.java:16 | the channel is closed even when the call throws; the call is logged |
| Files.CloseSilently | src/main/java/de/codecentric/reedelk/file/internal/commons/CloseableUtils.java:13-22 | null: nothing happens; otherwise exactly one close, the channel ends closed, an IOException is swallowed and any other exception propagates |
| ChannelProvider.LockThrew | src/main/java/de/codecentric/reedelk/file/internal/commons/FileChannelProvider.java:40-48 | a lock call returns exactly when it is the first one granted; after a grant every call overlaps |
| ChannelProvider.LockOutcome | src/main/java/de/codecentric/reedelk/file/internal/commons/FileChannelProvider.java:42-46 | the supplier returns exactly when `lock()` does; an IOException becomes a FileReadException with the lock error message; other exceptions pass unchanged |
| ChannelProvider.LockSupplier | src/main/java/de/codecentric/reedelk/file/internal/commons/FileChannelProvider.java:40-48 | one supplier outcome per lock response, in order |
| ChannelProvider.LockLog | src/main/java/de/codecentric/reedelk/file/internal/commons/FileChannelProvider.java:43 | the channel's log holds one lock call per call made, with what it threw |
| ChannelProvider.LockLogConsistent | src/main/java/de/codecentric/reedelk/file/internal/commons/FileChannelProvider.java:40-48 | after a successful lock call every later call overlaps; the log shows a successful call exactly when a response granted the lock |
| ChannelProvider.LockCommand | src/main/java/de/codecentric/reedelk/file/internal/commons/FileChannelProvider.java:25-31 | the command uses the caller's limit and wait time, and retries only on OverlappingFileLockException |
| ChannelProvider.SupplierReturnsAtMostOnce | src/main/java/de/codecentric/reedelk/file/internal/commons/FileChannelProvider.java:40-48 | the lock supplier returns normally at most once |
| ChannelProvider.LockRunFinishes | src/main/java/de/codecentric/reedelk/file/internal/commons/FileChannelProvider.java:25-31 | with limit + 2 responses (at least 2), locking always ends by returning or throwing, within the responses given |
| ChannelProvider.FirstGrantLocks | src/main/java/de/codecentric/reedelk/file/internal/commons/FileChannelProvider.java:25-31 | a lock granted on the first call: one call, no sleep, the lock is held |
| ChannelProvider.NoRetriesReturnsUnlocked | src/main/java/de/codecentric/reedelk/file/internal/commons/FileChannelProvider.java:25-31 | with a limit of 0 or less, a contended first call is swallowed and the channel is returned unlocked |
| ChannelProvider.GrantOnRetryIsLost | src/main/java/de/codecentric/reedelk/file/internal/commons/FileChannelProvider.java:25-35 | a lock granted on retry k is held and then overlapped by the next call; the command throws MaxRetriesExceeded after limit + 2 calls |
| ChannelProvider.From | src/main/java/com/reedelk/file/commons/FileChannelProvider.java:18-38 | open first, with no lock attempt if that fails; without LOCK the channel is returned untouched; with LOCK, a normal return gives the channel locked iff a call was granted; an Exception closes the channel silently before it is rethrown (or replaced by one escaping the close); only an Error leaves it open |
| Configuration.LockTypeOf | src/main/java/de/codecentric/reedelk/file/internal/write/WriteConfiguration.java:60-65 | the lock type is LOCK exactly when `lockFile` is true |
| Configuration.Setting | src/main/java/de/codecentric/reedelk/file/internal/write/WriteConfiguration.java:54-58 | the user's value when the configuration and the setting are present, the default otherwise |
| Configuration.NewWriteConfiguration | src/main/java/de/codecentric/reedelk/file/internal/write/WriteConfiguration.java:20-28 | LOCK exactly when a configuration sets `lockFile` to true; the write mode is the given one, or OVERWRITE when null |
| Configuration.WriteDefaults | src/main/java/de/codecentric/reedelk/file/internal/write/WriteConfiguration.java:54-88 | no configuration gives no lock, overwrite, 65536 bytes, 3 retries, 500 ms, no parent creation |
| Configuration.EmptyWriteConfigurationIsNull | src/main/java/de/codecentric/reedelk/file/internal/write/WriteConfiguration.java:54-83 | a configuration with nothing set resolves like a null one |
| Configuration.WriteSettingsIndependent | src/main/java/de/codecentric/reedelk/file/internal/write/WriteConfiguration.java:54-83 | each set value is taken unvalidated and each unset one defaults, independently of the others |
| Configuration.BytesFrom | src/main/java/de/codecentric/reedelk/file/internal/read/ReadConfigurationDecorator.java:66-70 | k * 1024 when it fits an `int`, and always congruent to it modulo 2^32 |
| Configuration.BytesFromWraps | src/main/java/de/codecentric/reedelk/file/internal/read/ReadConfigurationDecorator.java:66-70 | 2097151 KB is exact, 2097152 KB gives -2^31, 4194304 KB gives 0 |
| Configuration.NewReadConfiguration | src/main/java/de/codecentric/reedelk/file/internal/read/ReadConfigurationDecorator.java:17-22 | LOCK exactly when a configuration sets `lockFile` to true |
| Configuration.ReadDefaults | src/main/java/de/codecentric/reedelk/file/internal/read/ReadConfigurationDecorator.java:40-64 | no configuration gives no lock, a 1 MiB buffer, 3 retries 500 ms apart |
| Configuration.ReadSettings | src/main/java/de/codecentric/reedelk/file/internal/read/ReadConfigurationDecorator.java:40-64 | a user buffer size is KB and becomes k * 1024 bytes when that fits; retries and wait time are the user's or the defaults |
| Configuration.NewLegacyReadConfiguration | src/main/java/com/reedelk/file/read/ReadConfigurationDecorator.java:45-50 | LOCK exactly when a configuration sets `lockFile` to true |
| Configuration.LegacyReadSettings | src/main/java/com/reedelk/file/read/ReadConfigurationDecorator.java:16-62 | the buffer size (as bytes, unconverted), retries and wait time are the user's when set and the given defaults otherwise; no configuration gives no lock and the defaults |
| Configuration.GenerationsDifferInUnit | src/main/java/com/reedelk/file/read/ReadConfigurationDecorator.java:39-43 | the legacy generation takes the buffer size as bytes, the current one as KB: 1024 times apart, with the same lock type |
| Writer.Slices | src/main/java/com/reedelk/file/internal/write/Writer.java:72-74 | no slice at all for an empty chunk or a buffer size of 0 or less |
| Writer.SlicesConcatenate | src/main/java/com/reedelk/file/internal/write/Writer.java:72-88 | the slices, concatenated in order, are the chunk |
| Writer.SlicesCount | src/main/java/com/reedelk/file/internal/write/Writer.java:69-90 | there are ceil(n / B) slices |
| Writer.SlicesBounds | src/main/java/com/reedelk/file/internal/write/Writer.java:84-88 | every slice has 1 to B bytes, and every slice but the last exactly B |
| Writer.StreamWrittenInOrder | src/main/java/com/reedelk/file/internal/write/Writer.java:65-92 | the bytes written for a stream of chunks are the stream's bytes, in upstream order |
| Writer.StreamSlicesPrefix | src/main/java/com/reedelk/file/internal/write/Writer.java:65-92 | the slices of the first k chunks are written before any slice of a later chunk |
| Writer.WriteModeContent | src/main/java/com/reedelk/file/internal/write/Writer.java:48-92 | the file ends up holding the stream's bytes, after its former content when appending; opening succeeds exactly for an existing file not in create-new mode, or a missing file whose parent exists |
| Writer.Initial.constructor | src/main/java/com/reedelk/file/internal/write/Writer.java:165-173 | holds the given buffer and channel |
| Writer.NewInitial | src/main/java/com/reedelk/file/internal/write/Writer.java:48-63 | as written: an open failure is passed on with no channel; a file that opens gets a fresh channel; without a lock, or with a lock run that returns, a non-negative size always gives the channel and a buffer of that size; a lock run that throws passes its exception on, closing the channel first for an Exception; once the channel is opened, and locked when a lock run returns, a negative size fails with IllegalArgumentException and leaves that channel open with its lock calls unchanged |
| Writer.NewInitialClosing | src/main/java/com/reedelk/file/internal/write/Writer.java:48-63 | corrected: the same outcomes as `NewInitial` for opening, locking and a non-negative size, and a failure leaves no opened channel open, except when an Error escapes the lock; a negative size after opening (and a returned lock run) closes the channel and fails with what the close lets escape, otherwise IllegalArgumentException |
| Writer.NegativeBufferSizeAccepted | src/main/java/de/codecentric/reedelk/file/internal/write/WriteConfiguration.java:54-58 | a negative buffer size passes the configuration unchanged |
| Writer.CleanUp | src/main/java/com/reedelk/file/internal/write/Writer.java:150-158 | null-safe; drops the buffer; closes the channel once and drops it unless a non-IO exception escapes; a second call does nothing |
| Writer.SliceStep | src/main/java/com/reedelk/file/internal/write/Writer.java:76-88 | one iteration writes the next slice and leaves the bytes from the next offset |
| Writer.SlicesStillToCome | src/main/java/com/reedelk/file/internal/write/Writer.java:69-90 | what the loop has written plus the slices still to come is every slice of the chunk, before and after each write |
| Writer.OffsetStep | src/main/java/com/reedelk/file/internal/write/Writer.java:84-88 | the `int` offset may wrap past 2^31 - 1, but the remaining count is exact |
| Writer.PutAndWrite | src/main/java/com/reedelk/file/internal/write/Writer.java:76-82 | the bytes `offset .. offset + length` of the chunk are written, or an IOException and nothing |
| Writer.WriteSlices | src/main/java/com/reedelk/file/internal/write/Writer.java:67-92 | the loop writes exactly the slices of the chunk; on failure, a proper prefix of them |
| Writer.Accumulate | src/main/java/com/reedelk/file/internal/write/Writer.java:65-100 | a chunk is written as its slices; a failure runs `cleanUp` (the channel ends closed) before it propagates |
| Writer.AccumulateAll | src/main/java/com/reedelk/file/internal/write/Writer.java:65-100 | applied to each chunk in turn: on success the channel receives the stream's slices in order with its state and calls unchanged; on failure a proper prefix of them was written, the channel is closed, the buffer dropped, and the write's IOException is thrown unless a non-IO exception escaped the close |
| Writer.MapException | src/main/java/com/reedelk/file/internal/write/Writer.java:131-148 | NoSuchFile becomes NotValidFile, MaxRetriesExceeded the lock error, FileAlreadyExists the already-exists error, anything else the generic write error; each outcome comes from exactly that cause |
| ReadStream.Validate | src/main/java/com/reedelk/file/internal/read/ReadStrategyStream.java:30-38 | passes exactly for a regular file; a directory is rejected as a directory, anything else as not found |
| ReadStream.MapReadFailure | src/main/java/com/reedelk/file/internal/read/ReadStrategyStream.java:75-90 | NoSuchFile becomes NotValidFile, a FileReadException passes through, MaxRetriesExceeded becomes the lock error, the rest the read error; in the legacy generation an Error escapes |
| ReadStream.ReadLoop | src/main/java/com/reedelk/file/internal/read/ReadStrategyStream.java:56-69 | chunks of 1 to B bytes that always concatenate to the file up to the read position; each chunk is one read returning bytes, and the loop ends at the first read returning none or throwing; completion reads to the end (B > 0), or emits nothing (B = 0) |
| ReadStream.ReadLog | src/main/java/com/reedelk/file/internal/read/ReadStrategyStream.java:58 | the loop's reads: one that returned bytes per chunk, then the one that ended the loop |
| ReadStream.ReadAndClose | src/main/java/com/reedelk/file/internal/read/ReadStrategyStream.java:47-73 | a negative buffer size ends in the mapped IllegalArgumentException with no read; otherwise the stream completes exactly when no read threw, and a read failure is mapped; the channel is closed on every path |
| ReadStream.Subscribe | src/main/java/com/reedelk/file/internal/read/ReadStrategyStream.java:40-91 | a file that opens gets a fresh channel; whatever `from` throws (open failure, lock failure, MaxRetriesExceeded, an exception escaping the close) is mapped and nothing is emitted; after `from` returns, a negative buffer size is the mapped IllegalArgumentException for both lock types, and otherwise the stream completes exactly when no read threw, with the chunks concatenating to the file (no chunk for an empty file); only an Error escaping the lock leaves the channel open |
| ReadDefault.ReadWriteMode | src/main/java/com/reedelk/file/internal/read/ReadStrategyDefault.java:32 | "rw" exactly when locking |
| ReadDefault.MapIOException | src/main/java/com/reedelk/file/internal/read/ReadStrategyDefault.java:61-65 | an IOException becomes the read error; any other exception is unchanged |
| ReadDefault.FinallyLog | src/main/java/com/reedelk/file/internal/read/ReadStrategyDefault.java:67-85 | a release only when a lock was obtained, and before the close; the close happens unless a non-IO exception escaped the release |
| ReadDefault.FinallyThrew | src/main/java/com/reedelk/file/internal/read/ReadStrategyDefault.java:67-85 | release and close IOExceptions are swallowed; only another exception escapes |
| ReadDefault.TryLog | src/main/java/com/reedelk/file/internal/read/ReadStrategyDefault.java:40-51 | the try block locks only when locking, takes the size unless the lock threw, and reads once exactly when nothing threw before and `(int) size` is not negative |
| ReadDefault.TryFailure | src/main/java/com/reedelk/file/internal/read/ReadStrategyDefault.java:40-65 | the try block ends normally exactly when the lock (if any), the size and the read do not throw and `(int) size` is not negative; otherwise with the first failure, an IOException turned into the read error |
| ReadDefault.TryRead | src/main/java/com/reedelk/file/internal/read/ReadStrategyDefault.java:28-65 | the calls made are `TryLog`, the outcome fails exactly as `TryFailure` says, and a success is an array of `(int) size` bytes holding one read followed by zeros |
| ReadDefault.Finally | src/main/java/com/reedelk/file/internal/read/ReadStrategyDefault.java:67-85 | the calls made are `FinallyLog`; the channel ends closed unless a non-IO exception escaped the release |
| ReadDefault.Read | src/main/java/com/reedelk/file/internal/read/ReadStrategyDefault.java:24-86 | an open failure is a read error with no call on a channel; the channel's calls are the try block's followed by the finally block's; an exception escaping the finally block replaces the result, and otherwise the result is the try block's: Success exactly when no lock, size or read failure occurred and `(int) size` is not negative, and release and close IOExceptions leave it in place |

## Left out

- The Reactor pipeline of `Writer.write` is not modelled: `Flux.from`, `reduceWith`, `doOnSuccessOrError`, `doOnError`, `doOnSuccess`, `subscribeOn` and the `OnResult` callbacks. `Writer.AccumulateAll` stands for the reduction over the chunks. It is not modelled whether `Exceptions.propagate` wraps a checked exception before `mapException` sees it.
- The `Flux.create` sink of both `ReadStrategyStream`s (back-pressure, cancellation) is not modelled. A subscription is the emitted chunks plus how it ends. The close exception after `sink.complete()` is dropped, as Reactor drops errors after completion.
- The file is not re-validated between `read` and a subscription. `ReadStream.Subscribe` takes the file as it is when subscribed.
- `Thread.sleep` timing, real advisory-lock semantics between processes, and blocking are not modelled. Sleeps are counted, and contention is a sequence of lock responses.
- Retry.Execute: the supplier is a finite sequence of outcomes. A run that needs more outcomes ends in `OutOfOutcomes`, which belongs to the model only. `ChannelProvider.LockRunFinishes` shows that the lock use-case never reaches it.
- ChannelProvider.From: requires one lock response per possible call (`Covers`). This bounds the model's run, not the source's.
- Files.OpenFile: opening a regular file never fails unless CREATE_NEW refuses it. File permissions, access denial and other OS-level refusals are not modelled, so `OpenFile` fails only for a directory, a missing file, or CREATE_NEW on an existing file.
- Files.Channel.WriteAll: `write` is taken to consume the whole buffer, and its return value is not modelled.
- Files.Channel.Read: IO failures are one kind of IOException. Interrupted and asynchronously closed channels are not modelled.
- Out-of-memory errors from `ByteBuffer.allocate` are not modelled. `Fatal` (a `java.lang.Error`) reaches the model only through `lock()`.
- Messages.java is not modelled. Messages are tags, and path and root-cause text are not modelled.
- The host components (FileRead, FileWrite, FileExists, FileDelete), the configuration beans (their fields are `Option` inputs), MimeTypeParser, the attribute and exception classes, and the `ReadStrategy` interfaces are not modelled.
- src/main/java/com/reedelk/file/read/ReadStrategyDefault.java is not part of this model. It relies on code that is not shown.
- The `Defaults` class of the legacy `com.reedelk.file.read` generation is not part of this model. Its values are a parameter, `Configuration.LegacyReadDefaults`.
- The `com.reedelk.file.internal.commons` copies of FileChannelProvider and FileOpenOptions, and the `com.reedelk.file.internal.read` ReadConfigurationDecorator, are not part of this model. The `de.codecentric` copies are modelled in their place.
- Both `ReadStrategyStream` generations share `ReadStream.Subscribe`. They differ in `Generation`, which decides what is caught: Throwable or Exception. The buffer size comes from the decorator of each generation.
- The rest of the model keeps the retry loop as written (`Retry.RetryLoop`). This is the loop the module runs. The corrected loop is used only for the Findings comparison.

## Findings

| source | as written | input that shows it | evidently intended | confidence | as-written member | corrected member |
|---|---|---|---|---|---|---|
| src/main/java/com/reedelk/file/commons/RetryCommand.java:48-80 | a call that returns inside the retry loop does not leave the loop, so the next call runs; for a lock, that call overlaps the lock just obtained | limit 1, wait 500; calls: OverlappingFileLock, returns, OverlappingFileLock | the first call that returns ends the command normally | high, not executed | Retry.WrittenLosesSuccess | Retry.IntendedRetrySucceeds |
| src/main/java/com/reedelk/file/internal/write/Writer.java:48-63 | the buffer is allocated after the channel is opened (and locked); if allocation throws, the channel is never closed, because nothing refers to it any more | `writeBufferSize` -1 (accepted by the configuration), overwrite, existing file, no lock or a lock run that returns: IllegalArgumentException with the channel open | a failure while building the initial state closes the channel it opened | medium, not executed | Writer.NewInitial | Writer.NewInitialClosing |
