/** The Rust `Status` record behind the C++ status classes: constructors,
    classification predicates, `to_string` and `set_state_unsafe`. The state
    is the message as a byte vector that, when non-empty, ends in its NUL
    terminator. */
module RsStatus {
  import opened Wrappers
  import opened CStrings
  import opened StatusCodes

  datatype Status = Status(
    code: Code,
    subcode: SubCode,
    sev: Severity,
    retryable: bool,
    dataLoss: bool,
    scope: Scope,
    state: seq<byte>)
  {
    predicate IsOk() { code == Ok }
    predicate IsOkOverwritten() { code == Ok && subcode == Overwritten }
    predicate IsNotFound() { code == NotFound }
    predicate IsCorruption() { code == Corruption }
    predicate IsNotSupported() { code == NotSupported }
    predicate IsInvalidArgument() { code == InvalidArgument }
    predicate IsIOError() { code == IOError }
    predicate IsMergeInProgress() { code == MergeInProgress }
    predicate IsIncomplete() { code == Incomplete }
    predicate IsShutdownInProgress() { code == ShutdownInProgress }
    predicate IsTimedOut() { code == TimedOut }
    predicate IsAborted() { code == Aborted }
    predicate IsBusy() { code == Busy }
    predicate IsDeadlock() { code == Busy && subcode == Deadlock }
    predicate IsExpired() { code == Expired }
    predicate IsTryAgain() { code == TryAgain }
    predicate IsCompactionTooLarge() { code == CompactionTooLarge }

    /** As written, this tests the CompactionTooLarge code. */
    predicate IsColumnFamilyDropped() { code == CompactionTooLarge }

    /** The test the documentation of `is_column_family_dropped` describes. */
    predicate IsColumnFamilyDroppedIntended() { code == ColumnFamilyDropped }

    predicate IsNoSpace() { code == IOError && subcode == NoSpace }
    predicate IsMemoryLimit() { code == Aborted && subcode == MemoryLimit }
    predicate IsPathNotFound() { (code == IOError || code == NotFound) && subcode == PathNotFound }
    predicate IsManualCompactionPaused() { code == Incomplete && subcode == ManualCompactionPaused }
    predicate IsTxnNotPrepared() { code == InvalidArgument && subcode == TxnNotPrepared }
    predicate IsIOFenced() { code == IOError && subcode == IOFenced }

    /** The message without its terminator; empty when there is no state. */
    function Message(): (m: seq<byte>)
      ensures state != [] ==> state == m + [state[|state| - 1]]
      ensures state == [] ==> m == []
    {
      if state == [] then [] else state[..|state| - 1]
    }

    /** `to_string`: code prefix, then subcode text, then (for a non-empty
        state) ": " when the subcode is not None, then the message. The `todo!()`
        arms make the sentinels panic. */
    function ToString(): (r: Result<string>)
      ensures r.Success? <==> code != MaxCode && subcode != MaxSubCode
      ensures r.Success? ==> CodePrefix(code).value <= r.value
      ensures r.Success? ==> CodePrefix(code).value + SubCodeText(subcode).value <= r.value
      ensures r.Success? ==>
        |Message()| <= |r.value| && r.value[|r.value| - |Message()|..] == BytesToString(Message())
      ensures r.Success? && state == [] ==> r.value == CodePrefix(code).value + SubCodeText(subcode).value
    {
      if code == MaxCode || subcode == MaxSubCode then
        Panic("not yet implemented")
      else
        var result := CodePrefix(code).value + SubCodeText(subcode).value;
        if state != [] then
          var separated := if subcode != None then result + ": " else result;
          Success(separated + BytesToString(Message()))
        else
          Success(result)
    }

    /** `set_state_unsafe`: a null pointer stores the lone terminator [0];
        otherwise the C string with its terminator. Nothing else changes. */
    function SetStateUnsafe(p: CPtr): (r: Status)
      requires p.Ptr? ==> IsCString(p.mem)
      ensures IsNulTerminated(r.state)
      ensures p.Null? ==> r.state == [NUL]
      ensures p.Ptr? ==> r.state <= p.mem && r.Message() == p.mem[..StrLen(p.mem)]
      ensures r.(state := state) == this
    {
      var newState := if p.Null? then [NUL] else CharPtrToBytes(p.mem);
      this.(state := newState)
    }
  }

  /** The text `to_string` starts with; "OK" is the only prefix without a
      trailing ": ". */
  function CodePrefix(code: Code): (r: Result<string>)
    ensures r.Success? <==> code != MaxCode
    ensures r.Success? ==> (r.value == "OK" <==> code == Ok)
    ensures r.Success? && code != Ok ==> |r.value| > 2 && r.value[|r.value| - 2..] == ": "
  {
    match code
    case Ok => Success("OK")
    case NotFound => Success("NotFound: ")
    case Corruption => Success("Corruption: ")
    case NotSupported => Success("Not implemented: ")
    case InvalidArgument => Success("Invalid argument: ")
    case IOError => Success("IO error: ")
    case MergeInProgress => Success("Merge in progress: ")
    case Incomplete => Success("Result incomplete: ")
    case ShutdownInProgress => Success("Shutdown in progress: ")
    case TimedOut => Success("Operation timed out: ")
    case Aborted => Success("Operation aborted: ")
    case Busy => Success("Resource busy: ")
    case Expired => Success("Operation expired: ")
    case TryAgain => Success("Operation failed. Try again.: ")
    case CompactionTooLarge => Success("Compaction too large: ")
    case ColumnFamilyDropped => Success("Column family dropped: ")
    case MaxCode => Panic("not yet implemented")
  }

  /** The subcode text `to_string` appends: the entry of the subcode message
      table for every real subcode. */
  function SubCodeText(sc: SubCode): (r: Result<string>)
    ensures r.Success? <==> sc != MaxSubCode
    ensures r.Success? ==> sc.Ordinal() < |SubCodeMessages| && r.value == SubCodeMessages[sc.Ordinal()]
  {
    match sc
    case None => Success("")
    case MutexTimeout => Success("Timeout Acquiring Mutex")
    case LockTimeout => Success("Timeout waiting to lock key")
    case LockLimit => Success("Failed to acquire lock due to max_num_locks limit")
    case NoSpace => Success("No space left on device")
    case Deadlock => Success("Deadlock")
    case StaleFile => Success("Stale file handle")
    case MemoryLimit => Success("Memory limit reached")
    case SpaceLimit => Success("Space limit reached")
    case PathNotFound => Success("No such file or directory")
    case MergeOperandsInsufficientCapacity => Success("Insufficient capacity for merge operands")
    case ManualCompactionPaused => Success("Manual compaction paused")
    case Overwritten => Success(" (overwritten)")
    case TxnNotPrepared => Success("Txn not prepared")
    case IOFenced => Success("IO fenced off")
    case MergeOperatorFailed => Success("Merge operator failed")
    case MaxSubCode => Panic("not yet implemented")
  }

  function NewWithCodeSubcodeRetryableDataLossScope(
    code: Code, subcode: SubCode, retryable: bool, dataLoss: bool, scope: Scope): (r: Status)
    ensures r.code == code && r.subcode == subcode && r.sev == NoError
    ensures r.retryable == retryable && r.dataLoss == dataLoss && r.scope == scope && r.state == []
  {
    Status(code, subcode, NoError, retryable, dataLoss, scope, [])
  }

  function NewWithCodeAndSubcode(code: Code, subcode: SubCode): (r: Status)
    ensures r.code == code && r.subcode == subcode && r.sev == NoError
    ensures !r.retryable && !r.dataLoss && r.scope == 0 && r.state == []
  {
    Status(code, subcode, NoError, false, false, 0, [])
  }

  function NewWithCode(code: Code): (r: Status)
    ensures r.code == code && r.subcode == None && r.sev == NoError
    ensures !r.retryable && !r.dataLoss && r.scope == 0 && r.state == []
  {
    NewWithCodeAndSubcode(code, None)
  }

  function Default(): (r: Status)
    ensures r.IsOk() && r.subcode == None && r.sev == NoError && r.state == []
  {
    Status(Ok, None, NoError, false, false, 0, [])
  }

  /** The constructors agree with each other: `new_with_code` is
      `new_with_code_and_subcode` with no subcode, which is the general
      constructor with no flags and scope 0, and `Default` is the Ok status. */
  lemma ConstructorsAgree(code: Code, subcode: SubCode)
    ensures NewWithCode(code) == NewWithCodeAndSubcode(code, None)
    ensures NewWithCodeAndSubcode(code, subcode) ==
      NewWithCodeSubcodeRetryableDataLossScope(code, subcode, false, false, 0)
    ensures Default() == NewWithCode(Ok)
    ensures Default().ToString() == Success("OK")
  {
    assert CodePrefix(Ok) == Success("OK");
    assert SubCodeText(None) == Success("");
    assert "OK" + "" == "OK";
  }

  /** Every subcode-specific predicate implies the predicate of its code. */
  lemma SubCodePredicatesRefineCodePredicates(s: Status)
    ensures s.IsOkOverwritten() ==> s.IsOk()
    ensures s.IsDeadlock() ==> s.IsBusy()
    ensures s.IsNoSpace() ==> s.IsIOError()
    ensures s.IsMemoryLimit() ==> s.IsAborted()
    ensures s.IsPathNotFound() ==> s.IsIOError() || s.IsNotFound()
    ensures s.IsManualCompactionPaused() ==> s.IsIncomplete()
    ensures s.IsTxnNotPrepared() ==> s.IsInvalidArgument()
    ensures s.IsIOFenced() ==> s.IsIOError()
  {
  }

  /** As written, `is_column_family_dropped` agrees with
      `is_compaction_too_large` on every status and misses the
      ColumnFamilyDropped code itself. */
  lemma ColumnFamilyDroppedAsWritten(s: Status)
    ensures s.IsColumnFamilyDropped() <==> s.IsCompactionTooLarge()
    ensures !NewWithCode(ColumnFamilyDropped).IsColumnFamilyDropped()
    ensures NewWithCode(CompactionTooLarge).IsColumnFamilyDropped()
  {
  }

  /** The intended predicate recognises exactly the ColumnFamilyDropped code
      and never overlaps `is_compaction_too_large`. */
  lemma ColumnFamilyDroppedIntended(s: Status)
    ensures s.IsColumnFamilyDroppedIntended() <==> s.code == ColumnFamilyDropped
    ensures !(s.IsColumnFamilyDroppedIntended() && s.IsCompactionTooLarge())
    ensures NewWithCode(ColumnFamilyDropped).IsColumnFamilyDroppedIntended()
  {
  }

  /** A message stored through `set_state_unsafe` comes back verbatim at the
      end of `to_string`. */
  lemma {:induction false} SetStateThenToString(s: Status, m: seq<byte>)
    requires NUL !in m
    requires s.code != MaxCode && s.subcode != MaxSubCode
    ensures IsCString(m + [NUL])
    ensures s.SetStateUnsafe(Ptr(m + [NUL])).Message() == m
    ensures s.SetStateUnsafe(Ptr(m + [NUL])).ToString() == Success(
      CodePrefix(s.code).value + SubCodeText(s.subcode).value
      + (if s.subcode != None then ": " else "") + BytesToString(m))
  {
    var v := m + [NUL];
    assert IsNulTerminated(v) by {
      forall i | 0 <= i < |v| - 1 ensures v[i] != NUL {
        assert v[i] == m[i];
      }
    }
    CharPtrToBytesOfTerminated(v);
    var t := s.SetStateUnsafe(Ptr(v));
    assert t.state == v;
    assert t.Message() == m by { assert v[..|v| - 1] == m; }
    var head := CodePrefix(s.code).value + SubCodeText(s.subcode).value;
    if s.subcode == None {
      assert head + "" == head;
    }
  }

  /** A null message still yields the separator: the stored state is the lone
      terminator, which counts as a non-empty state. */
  lemma NullStateAddsSeparator(s: Status)
    requires s.code != MaxCode && s.subcode != MaxSubCode && s.subcode != None
    ensures s.SetStateUnsafe(Null).ToString() == Success(
      CodePrefix(s.code).value + SubCodeText(s.subcode).value + ": ")
  {
    var t := s.SetStateUnsafe(Null);
    assert t.state == [NUL] && t.Message() == [];
    var head := CodePrefix(s.code).value + SubCodeText(s.subcode).value;
    assert t.ToString() == Success(head + ": " + BytesToString(t.Message()));
    assert BytesToString([]) == [];
    assert head + ": " + [] == head + ": ";
  }

  /** The bytes of "Oops I did it again". */
  const OopsBytes: seq<byte> := [
    0x4f, 0x6f, 0x70, 0x73, 0x20, 0x49, 0x20, 0x64, 0x69, 0x64,
    0x20, 0x69, 0x74, 0x20, 0x61, 0x67, 0x61, 0x69, 0x6e]

  /** The published example: a TryAgain status with the message
      "Oops I did it again". */
  lemma {:induction false} TryAgainExample()
    ensures NUL !in OopsBytes
    ensures NewWithCode(TryAgain).SetStateUnsafe(Ptr(OopsBytes + [NUL])).ToString() ==
      Success("Operation failed. Try again.: Oops I did it again")
  {
    var text := "Oops I did it again";
    var prefix := "Operation failed. Try again.: ";
    OopsBytesSpellText();
    var s := NewWithCode(TryAgain);
    SetStateThenToString(s, OopsBytes);
    var r := s.SetStateUnsafe(Ptr(OopsBytes + [NUL])).ToString();
    assert r == Success(CodePrefix(TryAgain).value + SubCodeText(None).value + "" + text);
    assert CodePrefix(TryAgain).value == prefix;
    assert SubCodeText(None).value == "";
    assert prefix + "" + "" + text == prefix + text;
    TryAgainTextConcat();
  }

  lemma TryAgainTextConcat()
    ensures "Operation failed. Try again.: " + "Oops I did it again" ==
      "Operation failed. Try again.: Oops I did it again"
  {
  }

  lemma OopsBytesSpellText()
    ensures NUL !in OopsBytes
    ensures BytesToString(OopsBytes) == "Oops I did it again"
  {
  }
}
