/** The open-option tables: `FileOpenOptions.from` and `WriteMode.options()`. Java returns
    fresh `OpenOption[]` arrays; they are modelled as sequences in the same order. */
module OpenOptions {

  /** java.nio.file.StandardOpenOption (the constants the module uses) */
  datatype OpenOption = Read | Write | Create | CreateNew | TruncateExisting | Append

  /** LockType: `LOCK` or `NONE` */
  datatype LockType = Lock | NoLock

  /** FileOperation */
  datatype FileOperation = ReadOperation | WriteOperation

  /** WriteMode */
  datatype WriteMode = Overwrite | CreateNewMode | AppendMode

  /** `FileOpenOptions.from(fileOperation, lockType)` */
  function FileOpenOptions(op: FileOperation, lockType: LockType): (r: seq<OpenOption>)
    ensures |r| >= 1
    ensures forall o :: o in r ==> o == Read || o == Write
    ensures Read in r <==> lockType == Lock || op == ReadOperation
    ensures Write in r <==> lockType == Lock || op != ReadOperation
    ensures lockType == Lock ==> r == [Read, Write]
  {
    if lockType == Lock then [Read, Write]
    else if op == ReadOperation then [Read]
    else [Write]
  }

  /** `WriteMode.options()` */
  function Options(mode: WriteMode): (r: seq<OpenOption>)
    ensures Write in r && Read !in r
    ensures Append in r <==> mode == AppendMode
    ensures CreateNew in r <==> mode == CreateNewMode
    ensures TruncateExisting in r <==> mode == Overwrite
    ensures Create in r <==> mode != CreateNewMode
  {
    match mode
    case Overwrite => [Write, Create, TruncateExisting]
    case CreateNewMode => [Write, CreateNew]
    case AppendMode => [Write, Create, Append]
  }

  /** No write mode asks both to append and to truncate, or both to create and to create a
      new file only. */
  lemma OptionsConsistent(mode: WriteMode)
    ensures !(Append in Options(mode) && TruncateExisting in Options(mode))
    ensures !(Create in Options(mode) && CreateNew in Options(mode))
  {
  }

  /** The lock type takes precedence over the operation. */
  lemma LockTakesPrecedence(op1: FileOperation, op2: FileOperation)
    ensures FileOpenOptions(op1, Lock) == FileOpenOptions(op2, Lock)
  {
  }
}
