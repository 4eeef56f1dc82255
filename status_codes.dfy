/** The vocabulary shared by every status type: codes, subcodes and
    severities with their declared ordinals, the subcode message table and the
    one-byte error scope. */
module StatusCodes {

  /** A status code; `MaxCode` is the sentinel after the last real code. */
  datatype Code =
    | Ok | NotFound | Corruption | NotSupported | InvalidArgument | IOError
    | MergeInProgress | Incomplete | ShutdownInProgress | TimedOut | Aborted
    | Busy | Expired | TryAgain | CompactionTooLarge | ColumnFamilyDropped
    | MaxCode
  {
    function Ordinal(): nat {
      match this
      case Ok => 0
      case NotFound => 1
      case Corruption => 2
      case NotSupported => 3
      case InvalidArgument => 4
      case IOError => 5
      case MergeInProgress => 6
      case Incomplete => 7
      case ShutdownInProgress => 8
      case TimedOut => 9
      case Aborted => 10
      case Busy => 11
      case Expired => 12
      case TryAgain => 13
      case CompactionTooLarge => 14
      case ColumnFamilyDropped => 15
      case MaxCode => 16
    }
  }

  /** A status subcode; `MaxSubCode` is the sentinel after the last real one. */
  datatype SubCode =
    | None | MutexTimeout | LockTimeout | LockLimit | NoSpace | Deadlock
    | StaleFile | MemoryLimit | SpaceLimit | PathNotFound
    | MergeOperandsInsufficientCapacity | ManualCompactionPaused | Overwritten
    | TxnNotPrepared | IOFenced | MergeOperatorFailed
    | MaxSubCode
  {
    function Ordinal(): nat {
      match this
      case None => 0
      case MutexTimeout => 1
      case LockTimeout => 2
      case LockLimit => 3
      case NoSpace => 4
      case Deadlock => 5
      case StaleFile => 6
      case MemoryLimit => 7
      case SpaceLimit => 8
      case PathNotFound => 9
      case MergeOperandsInsufficientCapacity => 10
      case ManualCompactionPaused => 11
      case Overwritten => 12
      case TxnNotPrepared => 13
      case IOFenced => 14
      case MergeOperatorFailed => 15
      case MaxSubCode => 16
    }
  }

  datatype Severity =
    | NoError | SoftError | HardError | FatalError | UnrecoverableError | MaxSeverity

  /** The error scope is stored as an `unsigned char` / `u8`. */
  type Scope = n: nat | n < 256

  /** The subcode message table, indexed by subcode ordinal; it has one entry
      per real subcode. */
  const SubCodeMessages: seq<string> := [
    "",
    "Timeout Acquiring Mutex",
    "Timeout waiting to lock key",
    "Failed to acquire lock due to max_num_locks limit",
    "No space left on device",
    "Deadlock",
    "Stale file handle",
    "Memory limit reached",
    "Space limit reached",
    "No such file or directory",
    "Insufficient capacity for merge operands",
    "Manual compaction paused",
    " (overwritten)",
    "Txn not prepared",
    "IO fenced off",
    "Merge operator failed"
  ]

  /** The table is sized by the sentinel, so every real subcode indexes it,
      and only `None` has the empty message. */
  lemma {:induction false} SubCodeMessagesCoverRealSubCodes(sc: SubCode)
    ensures |SubCodeMessages| == MaxSubCode.Ordinal()
    ensures sc != MaxSubCode ==> sc.Ordinal() < |SubCodeMessages|
    ensures sc != MaxSubCode ==> (SubCodeMessages[sc.Ordinal()] == "" <==> sc == None)
    ensures SubCodeMessages[NoSpace.Ordinal()] == "No space left on device"
    ensures SubCodeMessages[Overwritten.Ordinal()] == " (overwritten)"
  {
    assert |SubCodeMessages| == 16;
    if sc != MaxSubCode && sc != None {
      assert SubCodeMessages[sc.Ordinal()] != "" by {
        assert |SubCodeMessages[sc.Ordinal()]| > 0;
      }
    }
  }
}
