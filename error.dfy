/** The error type the Rust crate surfaces to callers: a failure code (no Ok),
    an optional subcode, an optional message, the conversions from the C++
    status and the `Display` text. */
module RocksError {
  import opened Wrappers
  import opened Optional
  import opened CStrings
  import SC = StatusCodes
  import RsStatus
  import CppStatus

  datatype Code =
    | NotFound | Corruption | NotSupported | InvalidArgument | IOError
    | MergeInProgress | Incomplete | ShutdownInProgress | TimedOut | Aborted
    | Busy | Expired | TryAgain | CompactionTooLarge | ColumnFamilyDropped

  datatype SubCode =
    | MutexTimeout | LockTimeout | LockLimit | NoSpace | Deadlock | StaleFile
    | MemoryLimit | SpaceLimit | PathNotFound | MergeOperandsInsufficientCapacity
    | ManualCompactionPaused | Overwritten | TxnNotPrepared | IOFenced
    | MergeOperatorFailed

  datatype Error = Error(code: Code, subcode: Option<SubCode>, state: Option<string>)

  /** The status code an error code stands for. */
  function StatusCodeOf(c: Code): (r: SC.Code)
    ensures r != SC.Ok && r != SC.MaxCode
  {
    match c
    case NotFound => SC.NotFound
    case Corruption => SC.Corruption
    case NotSupported => SC.NotSupported
    case InvalidArgument => SC.InvalidArgument
    case IOError => SC.IOError
    case MergeInProgress => SC.MergeInProgress
    case Incomplete => SC.Incomplete
    case ShutdownInProgress => SC.ShutdownInProgress
    case TimedOut => SC.TimedOut
    case Aborted => SC.Aborted
    case Busy => SC.Busy
    case Expired => SC.Expired
    case TryAgain => SC.TryAgain
    case CompactionTooLarge => SC.CompactionTooLarge
    case ColumnFamilyDropped => SC.ColumnFamilyDropped
  }

  /** The status subcode an error subcode stands for. */
  function StatusSubCodeOf(sc: SubCode): (r: SC.SubCode)
    ensures r != SC.None && r != SC.MaxSubCode
  {
    match sc
    case MutexTimeout => SC.MutexTimeout
    case LockTimeout => SC.LockTimeout
    case LockLimit => SC.LockLimit
    case NoSpace => SC.NoSpace
    case Deadlock => SC.Deadlock
    case StaleFile => SC.StaleFile
    case MemoryLimit => SC.MemoryLimit
    case SpaceLimit => SC.SpaceLimit
    case PathNotFound => SC.PathNotFound
    case MergeOperandsInsufficientCapacity => SC.MergeOperandsInsufficientCapacity
    case ManualCompactionPaused => SC.ManualCompactionPaused
    case Overwritten => SC.Overwritten
    case TxnNotPrepared => SC.TxnNotPrepared
    case IOFenced => SC.IOFenced
    case MergeOperatorFailed => SC.MergeOperatorFailed
  }

  /** `From<Status_Code> for Code`: Ok is not a failure and panics, the
      sentinel is unreachable, every other code keeps its name. */
  function CodeFromStatusCode(c: SC.Code): (r: Result<Code>)
    ensures r.Success? <==> c != SC.Ok && c != SC.MaxCode
    ensures r.Success? ==> StatusCodeOf(r.value) == c
  {
    match c
    case Ok => Panic("Expected failure but found Status_Code::kOk")
    case NotFound => Success(NotFound)
    case Corruption => Success(Corruption)
    case NotSupported => Success(NotSupported)
    case InvalidArgument => Success(InvalidArgument)
    case IOError => Success(IOError)
    case MergeInProgress => Success(MergeInProgress)
    case Incomplete => Success(Incomplete)
    case ShutdownInProgress => Success(ShutdownInProgress)
    case TimedOut => Success(TimedOut)
    case Aborted => Success(Aborted)
    case Busy => Success(Busy)
    case Expired => Success(Expired)
    case TryAgain => Success(TryAgain)
    case CompactionTooLarge => Success(CompactionTooLarge)
    case ColumnFamilyDropped => Success(ColumnFamilyDropped)
    case MaxCode => Panic("internal error: entered unreachable code")
  }

  /** `From<Status_SubCode> for Option<SubCode>`: no subcode is `None`, the
      sentinel is unreachable, every other subcode keeps its name. */
  function SubCodeFromStatusSubCode(sc: SC.SubCode): (r: Result<Option<SubCode>>)
    ensures r.Success? <==> sc != SC.MaxSubCode
    ensures r.Success? ==> (r.value.None? <==> sc == SC.None)
    ensures r.Success? && r.value.Some? ==> StatusSubCodeOf(r.value.value) == sc
  {
    match sc
    case None => Success(Option.None)
    case MutexTimeout => Success(Some(MutexTimeout))
    case LockTimeout => Success(Some(LockTimeout))
    case LockLimit => Success(Some(LockLimit))
    case NoSpace => Success(Some(NoSpace))
    case Deadlock => Success(Some(Deadlock))
    case StaleFile => Success(Some(StaleFile))
    case MemoryLimit => Success(Some(MemoryLimit))
    case SpaceLimit => Success(Some(SpaceLimit))
    case PathNotFound => Success(Some(PathNotFound))
    case MergeOperandsInsufficientCapacity => Success(Some(MergeOperandsInsufficientCapacity))
    case ManualCompactionPaused => Success(Some(ManualCompactionPaused))
    case Overwritten => Success(Some(Overwritten))
    case TxnNotPrepared => Success(Some(TxnNotPrepared))
    case IOFenced => Success(Some(IOFenced))
    case MergeOperatorFailed => Success(Some(MergeOperatorFailed))
    case MaxSubCode => Panic("internal error: entered unreachable code")
  }

  /** The conversions are bijections between the error codes and the failure
      status codes, and between the error subcodes and the real status
      subcodes other than None. */
  lemma {:induction false} ConversionsRoundTrip(c: Code, sc: SubCode, s: SC.Code, ss: SC.SubCode)
    ensures CodeFromStatusCode(StatusCodeOf(c)) == Success(c)
    ensures SubCodeFromStatusSubCode(StatusSubCodeOf(sc)) == Success(Some(sc))
    ensures s != SC.Ok && s != SC.MaxCode ==> StatusCodeOf(CodeFromStatusCode(s).value) == s
    ensures ss != SC.None && ss != SC.MaxSubCode ==>
      StatusSubCodeOf(SubCodeFromStatusSubCode(ss).value.value) == ss
  {
    CodeRoundTrip(c);
    SubCodeRoundTrip(sc);
  }

  lemma {:induction false} CodeRoundTrip(c: Code)
    ensures CodeFromStatusCode(StatusCodeOf(c)) == Success(c)
  {
    match c {
      case NotFound => case Corruption => case NotSupported => case InvalidArgument =>
      case IOError => case MergeInProgress => case Incomplete => case ShutdownInProgress =>
      case TimedOut => case Aborted => case Busy => case Expired => case TryAgain =>
      case CompactionTooLarge => case ColumnFamilyDropped =>
    }
  }

  lemma {:induction false} SubCodeRoundTrip(sc: SubCode)
    ensures SubCodeFromStatusSubCode(StatusSubCodeOf(sc)) == Success(Some(sc))
  {
    match sc {
      case MutexTimeout => case LockTimeout => case LockLimit => case NoSpace =>
      case Deadlock => case StaleFile => case MemoryLimit => case SpaceLimit =>
      case PathNotFound => case MergeOperandsInsufficientCapacity =>
      case ManualCompactionPaused => case Overwritten => case TxnNotPrepared =>
      case IOFenced => case MergeOperatorFailed =>
    }
  }

  /** `From<&Status> for Error`: a null state is no message, otherwise the C
      string's text; the code conversion panics for Ok. */
  function FromStatus(s: CppStatus.StatusValue): (r: Result<Error>)
    requires s.state.Ptr? ==> IsCString(s.state.mem)
    ensures r.Success? <==> s.code != SC.Ok && s.code != SC.MaxCode && s.subcode != SC.MaxSubCode
    ensures r.Success? ==> StatusCodeOf(r.value.code) == s.code
    ensures r.Success? ==> (r.value.subcode.None? <==> s.subcode == SC.None)
    ensures r.Success? ==> (r.value.state.None? <==> s.state.Null?)
    ensures r.Success? && s.state.Ptr? ==>
      r.value.state.value == BytesToString(s.state.mem[..StrLen(s.state.mem)])
  {
    var state := if s.state.Null? then Option.None else Some(BytesToString(s.state.mem[..StrLen(s.state.mem)]));
    match CodeFromStatusCode(s.code)
    case Panic(reason) => Panic(reason)
    case Success(code) =>
      match SubCodeFromStatusSubCode(s.subcode)
      case Panic(reason) => Panic(reason)
      case Success(subcode) => Success(Error(code, subcode, state))
  }

  function CodeText(c: Code): (r: string)
    ensures Success(r) == RsStatus.CodePrefix(StatusCodeOf(c))
  {
    match c
    case NotFound => "NotFound: "
    case Corruption => "Corruption: "
    case NotSupported => "Not implemented: "
    case InvalidArgument => "Invalid argument: "
    case IOError => "IO error: "
    case MergeInProgress => "Merge in progress: "
    case Incomplete => "Result incomplete: "
    case ShutdownInProgress => "Shutdown in progress: "
    case TimedOut => "Operation timed out: "
    case Aborted => "Operation aborted: "
    case Busy => "Resource busy: "
    case Expired => "Operation expired: "
    case TryAgain => "Operation failed. Try again.: "
    case CompactionTooLarge => "Compaction too large: "
    case ColumnFamilyDropped => "Column family dropped: "
  }

  function SubCodeText(sc: SubCode): (r: string)
    ensures Success(r) == RsStatus.SubCodeText(StatusSubCodeOf(sc))
    ensures r == SC.SubCodeMessages[StatusSubCodeOf(sc).Ordinal()]
  {
    match sc
    case MutexTimeout => "Timeout Acquiring Mutex"
    case LockTimeout => "Timeout waiting to lock key"
    case LockLimit => "Failed to acquire lock due to max_num_locks limit"
    case NoSpace => "No space left on device"
    case Deadlock => "Deadlock"
    case StaleFile => "Stale file handle"
    case MemoryLimit => "Memory limit reached"
    case SpaceLimit => "Space limit reached"
    case PathNotFound => "No such file or directory"
    case MergeOperandsInsufficientCapacity => "Insufficient capacity for merge operands"
    case ManualCompactionPaused => "Manual compaction paused"
    case Overwritten => " (overwritten)"
    case TxnNotPrepared => "Txn not prepared"
    case IOFenced => "IO fenced off"
    case MergeOperatorFailed => "Merge operator failed"
  }

  /** `Display for Error`: code text, subcode text when there is a subcode,
      then the message verbatim with no separator. */
  function Display(e: Error): (r: string)
    ensures CodeText(e.code) <= r
    ensures e.subcode.Some? ==> CodeText(e.code) + SubCodeText(e.subcode.value) <= r
    ensures e.state.Some? ==> |e.state.value| <= |r| && r[|r| - |e.state.value|..] == e.state.value
    ensures e.subcode.None? && e.state.None? ==> r == CodeText(e.code)
  {
    var code := CodeText(e.code);
    var withSubCode := if e.subcode.Some? then code + SubCodeText(e.subcode.value) else code;
    if e.state.Some? then withSubCode + e.state.value else withSubCode
  }

  /** `Display` of the error converted from a status agrees with the status's
      own `ToString` except for one separator: with a subcode and a message,
      `ToString` puts ": " between them and `Display` does not. */
  lemma {:induction false} DisplayVersusToString(s: CppStatus.StatusValue, m: seq<byte>)
    requires s.code != SC.Ok && s.code != SC.MaxCode && s.subcode != SC.MaxSubCode
    requires NUL !in m
    requires s.state == Ptr(m + [NUL])
    ensures IsCString(s.state.mem) && FromStatus(s).Success? && s.ToString().Success?
    ensures
      var head := RsStatus.CodePrefix(s.code).value + RsStatus.SubCodeText(s.subcode).value;
      Display(FromStatus(s).value) == head + BytesToString(m) &&
      s.ToString().value == head + (if s.subcode != SC.None then ": " else "") + BytesToString(m)
  {
    FromStatusWithMessage(s, m);
    CppStatus.ToStringWithMessage(s, m);
    var e := FromStatus(s).value;
    TextsAgree(s, e);
    DisplayOfMessage(e, BytesToString(m));
  }

  /** The error's code and subcode texts are the status's. */
  lemma TextsAgree(s: CppStatus.StatusValue, e: Error)
    requires s.code != SC.MaxCode && s.subcode != SC.MaxSubCode
    requires StatusCodeOf(e.code) == s.code
    requires e.subcode.None? <==> s.subcode == SC.None
    requires e.subcode.Some? ==> StatusSubCodeOf(e.subcode.value) == s.subcode
    ensures CodeText(e.code) == RsStatus.CodePrefix(s.code).value
    ensures e.subcode.None? ==> RsStatus.SubCodeText(s.subcode).value == ""
    ensures e.subcode.Some? ==> SubCodeText(e.subcode.value) == RsStatus.SubCodeText(s.subcode).value
  {
    if e.subcode.Some? {
      assert Success(SubCodeText(e.subcode.value)) == RsStatus.SubCodeText(s.subcode);
    }
  }

  /** `Display` of an error with a message, written as its three parts. */
  lemma DisplayOfMessage(e: Error, msg: string)
    requires e.state == Some(msg)
    ensures Display(e) == CodeText(e.code) + (if e.subcode.Some? then SubCodeText(e.subcode.value) else "") + msg
  {
    if e.subcode.None? {
      assert CodeText(e.code) + "" == CodeText(e.code);
    }
  }

  /** Converting a status with a message keeps the message text. */
  lemma {:induction false} FromStatusWithMessage(s: CppStatus.StatusValue, m: seq<byte>)
    requires s.code != SC.Ok && s.code != SC.MaxCode && s.subcode != SC.MaxSubCode
    requires NUL !in m
    requires s.state == Ptr(m + [NUL])
    ensures IsCString(s.state.mem) && FromStatus(s).Success?
    ensures FromStatus(s).value.state == Some(BytesToString(m))
  {
    var v := m + [NUL];
    assert IsNulTerminated(v) by {
      forall i | 0 <= i < |v| - 1 ensures v[i] != NUL { assert v[i] == m[i]; }
    }
    CharPtrToBytesOfTerminated(v);
    assert v[..StrLen(v)] == m;
  }

  /** Without a message the two texts agree exactly. */
  lemma DisplayWithoutMessage(s: CppStatus.StatusValue)
    requires s.code != SC.Ok && s.code != SC.MaxCode && s.subcode != SC.MaxSubCode
    requires s.state.Null?
    ensures FromStatus(s).Success? && s.ToString().Success?
    ensures Display(FromStatus(s).value) == s.ToString().value
  {
    var e := FromStatus(s).value;
    if s.subcode == SC.None {
      assert RsStatus.SubCodeText(s.subcode).value == "";
      assert CodeText(e.code) + "" == CodeText(e.code);
    } else {
      assert RsStatus.SubCodeText(s.subcode).value == SubCodeText(e.subcode.value);
    }
  }
}
