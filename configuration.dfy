/** The default values of `com.reedelk.file.internal.commons.Defaults`. */
module Defaults {
  import opened JavaInt

  /** the read buffer size in KB: 1 MiB once converted to bytes */
  const READ_FILE_BUFFER_SIZE_KB: int32 := 1024
  const READ_RETRY_MAX_ATTEMPTS: int32 := 3
  const READ_RETRY_WAIT_TIME: int64 := 500

  /** the write buffer size in bytes */
  const WRITE_FILE_BUFFER_SIZE: int32 := 65536
  const WRITE_RETRY_MAX_ATTEMPTS: int32 := 3
  const WRITE_RETRY_WAIT_TIME: int64 := 500
}

/** The overlay of the user's optional settings on the defaults: `WriteConfiguration` and the
    two generations of `ReadConfigurationDecorator`. A null configuration object is `None`,
    a null field of a present one is `None` too. */
module Configuration {
  import opened Wrappers
  import opened JavaInt
  import opened OpenOptions
  import opened Defaults

  /** The designer bean `FileWriteConfiguration`: each setting may be left unset (null). */
  datatype FileWriteConfiguration = FileWriteConfiguration(
    createParentDirectory: Option<bool>,
    lockFile: Option<bool>,
    lockRetryMaxAttempts: Option<int32>,
    lockRetryWaitTime: Option<int64>,
    writeBufferSize: Option<int32>)

  /** The designer bean `FileReadConfiguration`. */
  datatype FileReadConfiguration = FileReadConfiguration(
    lockFile: Option<bool>,
    lockRetryMaxAttempts: Option<int32>,
    lockRetryWaitTime: Option<int64>,
    readBufferSize: Option<int32>)

  /** The resolved, final settings of a write. */
  datatype WriteConfiguration = WriteConfiguration(
    lockType: LockType,
    writeMode: WriteMode,
    writeBufferSize: int32,
    retryMaxAttempts: int32,
    retryWaitTime: int64,
    createParentDirectory: bool)

  /** The resolved, final settings of a read. `readBufferSize` is in bytes. */
  datatype ReadConfiguration = ReadConfiguration(
    lockType: LockType,
    readBufferSize: int32,
    retryMaxAttempts: int32,
    retryWaitTime: int64)

  /** `lockFile` mapped to a lock type: only an explicit `true` locks. */
  function LockTypeOf(lockFile: Option<bool>): (t: LockType)
    ensures t == Lock <==> lockFile == Some(true)
  {
    match lockFile
    case Some(shouldLock) => if shouldLock then Lock else NoLock
    case None => NoLock
  }

  /** `Optional.ofNullable(configuration).flatMap(getter).orElse(default)` for one setting:
      the user's value when the configuration and the setting are both present. */
  function Setting<T>(present: bool, user: Option<T>, default: T): (v: T)
    ensures present && user.Some? ==> v == user.value
    ensures !(present && user.Some?) ==> v == default
  {
    if present then user.OrElse(default) else default
  }

  /** The `WriteConfiguration` constructor. */
  function NewWriteConfiguration(configuration: Option<FileWriteConfiguration>, mode: Option<WriteMode>)
    : (c: WriteConfiguration)
    ensures c.lockType == Lock <==> configuration.Some? && configuration.value.lockFile == Some(true)
    ensures c.writeMode == (if mode.Some? then mode.value else Overwrite)
  {
    var present := configuration.Some?;
    var bean := if present then configuration.value else FileWriteConfiguration(None, None, None, None, None);
    WriteConfiguration(
      if present then LockTypeOf(bean.lockFile) else NoLock,
      mode.OrElse(Overwrite),
      Setting(present, bean.writeBufferSize, WRITE_FILE_BUFFER_SIZE),
      Setting(present, bean.lockRetryMaxAttempts, WRITE_RETRY_MAX_ATTEMPTS),
      Setting(present, bean.lockRetryWaitTime, WRITE_RETRY_WAIT_TIME),
      Setting(present, bean.createParentDirectory, false))
  }

  /** No configuration at all gives every default: no lock, overwrite, a 65536-byte buffer,
      3 retries 500 ms apart, no parent directory creation. */
  lemma WriteDefaults()
    ensures NewWriteConfiguration(None, None) == WriteConfiguration(NoLock, Overwrite, 65536, 3, 500, false)
  {
  }

  /** A configuration with nothing set resolves like no configuration. */
  lemma EmptyWriteConfigurationIsNull(mode: Option<WriteMode>)
    ensures NewWriteConfiguration(Some(FileWriteConfiguration(None, None, None, None, None)), mode)
         == NewWriteConfiguration(None, mode)
  {
  }

  /** Each setting of the user's configuration decides its own field: a set value is taken as
      it is (without validation: a zero or negative buffer size passes), an unset one falls
      back to the default, whatever the other settings are. */
  lemma WriteSettingsIndependent(user: FileWriteConfiguration, mode: Option<WriteMode>)
    ensures var c := NewWriteConfiguration(Some(user), mode);
            && c.writeBufferSize == (if user.writeBufferSize.Some? then user.writeBufferSize.value else WRITE_FILE_BUFFER_SIZE)
            && c.retryMaxAttempts == (if user.lockRetryMaxAttempts.Some? then user.lockRetryMaxAttempts.value else WRITE_RETRY_MAX_ATTEMPTS)
            && c.retryWaitTime == (if user.lockRetryWaitTime.Some? then user.lockRetryWaitTime.value else WRITE_RETRY_WAIT_TIME)
            && c.createParentDirectory == (user.createParentDirectory == Some(true))
  {
  }

  /** `bytesFrom`: kilobytes times 1024 in 32-bit `int` arithmetic. */
  function BytesFrom(kilobytes: int32): (bytes: int32)
    ensures -2097152 <= kilobytes <= 2097151 ==> bytes == kilobytes * 1024
    ensures (bytes - kilobytes * 1024) % TWO_32 == 0
  {
    Wrap32(kilobytes * 1024)
  }

  /** Above 2097151 KB the product no longer fits an `int` and wraps: 2097152 KB gives the
      most negative `int`, 4194304 KB gives 0. */
  lemma BytesFromWraps()
    ensures BytesFrom(2097151) == 2147482624
    ensures BytesFrom(2097152) == -2147483648
    ensures BytesFrom(4194304) == 0
  {
  }

  /** The `de.codecentric` `ReadConfigurationDecorator`: the buffer size is a KB value, the
      user's as well as the default, converted by `BytesFrom`. */
  function NewReadConfiguration(configuration: Option<FileReadConfiguration>): (c: ReadConfiguration)
    ensures c.lockType == Lock <==> configuration.Some? && configuration.value.lockFile == Some(true)
  {
    var present := configuration.Some?;
    var bean := if present then configuration.value else FileReadConfiguration(None, None, None, None);
    ReadConfiguration(
      if present then LockTypeOf(bean.lockFile) else NoLock,
      BytesFrom(Setting(present, bean.readBufferSize, READ_FILE_BUFFER_SIZE_KB)),
      Setting(present, bean.lockRetryMaxAttempts, READ_RETRY_MAX_ATTEMPTS),
      Setting(present, bean.lockRetryWaitTime, READ_RETRY_WAIT_TIME))
  }

  /** No configuration gives no lock, a 1 MiB buffer, 3 retries 500 ms apart. */
  lemma ReadDefaults()
    ensures NewReadConfiguration(None) == ReadConfiguration(NoLock, 1048576, 3, 500)
  {
  }

  /** A user buffer size of `k` KB becomes `k * 1024` bytes when that fits an `int`; retries
      and wait time are the user's when set, the defaults otherwise. */
  lemma ReadSettings(user: FileReadConfiguration)
    ensures var c := NewReadConfiguration(Some(user));
            && (user.readBufferSize.Some? && -2097152 <= user.readBufferSize.value <= 2097151 ==>
                  c.readBufferSize == user.readBufferSize.value * 1024)
            && (user.readBufferSize.None? ==> c.readBufferSize == 1048576)
            && c.retryMaxAttempts == (if user.lockRetryMaxAttempts.Some? then user.lockRetryMaxAttempts.value else READ_RETRY_MAX_ATTEMPTS)
            && c.retryWaitTime == (if user.lockRetryWaitTime.Some? then user.lockRetryWaitTime.value else READ_RETRY_WAIT_TIME)
  {
  }

  /** The defaults of the `com.reedelk.file.read` generation: its `Defaults` class is not part
      of this model, so they are a parameter. */
  datatype LegacyReadDefaults = LegacyReadDefaults(readBufferSize: int32, retryMaxAttempts: int32, retryWaitTime: int64)

  /** The `com.reedelk.file.read` `ReadConfigurationDecorator`: the buffer size is taken as
      bytes, with no conversion. */
  function NewLegacyReadConfiguration(configuration: Option<FileReadConfiguration>, defaults: LegacyReadDefaults)
    : (c: ReadConfiguration)
    ensures c.lockType == Lock <==> configuration.Some? && configuration.value.lockFile == Some(true)
  {
    var present := configuration.Some?;
    var bean := if present then configuration.value else FileReadConfiguration(None, None, None, None);
    ReadConfiguration(
      if present then LockTypeOf(bean.lockFile) else NoLock,
      Setting(present, bean.readBufferSize, defaults.readBufferSize),
      Setting(present, bean.lockRetryMaxAttempts, defaults.retryMaxAttempts),
      Setting(present, bean.lockRetryWaitTime, defaults.retryWaitTime))
  }

  /** The legacy decorator takes every setting as it is: the buffer size in bytes, the
      retries and the wait time are the user's when set, the given defaults otherwise, and
      no configuration at all gives no lock and the defaults. */
  lemma LegacyReadSettings(configuration: Option<FileReadConfiguration>, defaults: LegacyReadDefaults)
    ensures var c := NewLegacyReadConfiguration(configuration, defaults);
            var user := if configuration.Some? then configuration.value else FileReadConfiguration(None, None, None, None);
            && c.readBufferSize == (if user.readBufferSize.Some? then user.readBufferSize.value else defaults.readBufferSize)
            && c.retryMaxAttempts == (if user.lockRetryMaxAttempts.Some? then user.lockRetryMaxAttempts.value else defaults.retryMaxAttempts)
            && c.retryWaitTime == (if user.lockRetryWaitTime.Some? then user.lockRetryWaitTime.value else defaults.retryWaitTime)
    ensures NewLegacyReadConfiguration(None, defaults)
         == ReadConfiguration(NoLock, defaults.readBufferSize, defaults.retryMaxAttempts, defaults.retryWaitTime)
  {
  }

  /** The two generations read the same user setting differently: the legacy one takes `k` as
      bytes, the current one as `k * 1024` bytes. */
  lemma GenerationsDifferInUnit(user: FileReadConfiguration, defaults: LegacyReadDefaults)
    requires user.readBufferSize.Some? && 1 <= user.readBufferSize.value <= 2097151
    ensures NewReadConfiguration(Some(user)).readBufferSize
         == 1024 * NewLegacyReadConfiguration(Some(user), defaults).readBufferSize
    ensures NewReadConfiguration(Some(user)).lockType == NewLegacyReadConfiguration(Some(user), defaults).lockType
  {
  }
}
