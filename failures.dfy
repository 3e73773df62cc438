/** The exceptions of the file module, as values. Messages are carried as their template
    tags; the formatted text (path, root-cause message) is not modelled. */
module Failures {

  /** Message templates used when the module builds its own exceptions. */
  datatype Msg =
    | FileLockError             // the lock could not be acquired (read generation)
    | FileReadError             // the file could not be read
    | FileIsDirectory           // the path names a directory
    | FileNotFound              // the path names no regular file
    | FileLockMaxRetryError     // the lock retries were exhausted
    | ErrorFileNotFound         // the file to write has no parent directory
    | ErrorFileWriteAlreadyExists // the file to create already exists
    | ErrorFileWriteWithPath    // any other write error

  /** The kinds of `java.io.IOException` the module tells apart. */
  datatype IoKind =
    | NoSuchFile                // java.nio.file.NoSuchFileException
    | FileAlreadyExists         // java.nio.file.FileAlreadyExistsException
    | FileNotFoundIo            // java.io.FileNotFoundException (RandomAccessFile)
    | OtherIo                   // any other IOException

  /** A thrown `java.lang.Throwable`. */
  datatype Failure =
    | Io(kind: IoKind)          // checked IOException
    | OverlappingFileLock       // unchecked: the JVM already holds an overlapping lock
    | IllegalArgument           // unchecked: e.g. ByteBuffer.allocate with a negative capacity
    | IndexOutOfBounds          // unchecked: e.g. ByteBuffer.put with an out-of-range offset
    | OtherRuntime              // any other unchecked exception
    | NullPointer
    | Interrupted               // checked InterruptedException from Thread.sleep
    | Esb(cause: Failure)       // ESBException wrapping a cause
    | MaxRetriesExceeded        // the retry command gave up
    | FileRead(msg: Msg)        // FileReadException
    | FileWrite(msg: Msg)       // FileWriteException
    | NotValidFile(msg: Msg)    // NotValidFileException
    | Fatal                     // a java.lang.Error: a Throwable that is not an Exception

  /** `e instanceof IOException` */
  predicate IsIOException(e: Failure) {
    e.Io?
  }

  /** `e instanceof Exception` */
  predicate IsException(e: Failure) {
    !e.Fatal?
  }

  /** The exception classes a retry command can be told to retry on. */
  datatype FailureClass = OverlappingFileLockClass | IOExceptionClass | ExceptionClass

  /** `cls.isAssignableFrom(e.getClass())` */
  predicate InstanceOf(e: Failure, cls: FailureClass) {
    match cls
    case OverlappingFileLockClass => e.OverlappingFileLock?
    case IOExceptionClass => e.Io?
    case ExceptionClass => IsException(e)
  }
}
