/** The C++ `Status` class: a value snapshot with the const members
    (predicates, equality, `ToString`), the factories, the message-building
    constructor and `CopyAppendMessage`, and a class whose copy and move
    operations update the fields of the objects involved. The state is an
    owned C string: `Null`, or `Ptr` of its bytes including the terminator. */
module CppStatus {
  import opened Wrappers
  import opened CStrings
  import opened StatusCodes
  import RsStatus

  /** The fields of a `Status` object at one moment. */
  datatype StatusValue = StatusValue(
    code: Code,
    subcode: SubCode,
    sev: Severity,
    retryable: bool,
    dataLoss: bool,
    scope: Scope,
    state: CPtr)
  {
    predicate IsOk() { code == Ok }
    predicate IsOkOverwritten() { code == Ok && subcode == Overwritten }
    predicate IsNotFound() { code == NotFound }
    predicate IsCorruption() { code == Corruption }
    predicate IsNotSupported() { code == NotSupported }
    predicate IsInvalidArgument() { code == InvalidArgument }
    predicate IsIOError() { code == IOError }
    predicate IsMergeInProgress() { code == MergeInProgress }
    predicate IsIncomplete() { code == Incomplete }
    predicate IsShutdownInProgress() { code == ShutdownInProgress }
    predicate IsTimedOut() { code == TimedOut }
    predicate IsAborted() { code == Aborted }
    predicate IsLockLimit() { code == Aborted && subcode == LockLimit }
    predicate IsBusy() { code == Busy }
    predicate IsDeadlock() { code == Busy && subcode == Deadlock }
    predicate IsExpired() { code == Expired }
    predicate IsTryAgain() { code == TryAgain }
    predicate IsCompactionTooLarge() { code == CompactionTooLarge }
    predicate IsColumnFamilyDropped() { code == ColumnFamilyDropped }
    predicate IsNoSpace() { code == IOError && subcode == NoSpace }
    predicate IsMemoryLimit() { code == Aborted && subcode == MemoryLimit }
    predicate IsPathNotFound() { (code == IOError || code == NotFound) && subcode == PathNotFound }
    predicate IsManualCompactionPaused() { code == Incomplete && subcode == ManualCompactionPaused }
    predicate IsTxnNotPrepared() { code == InvalidArgument && subcode == TxnNotPrepared }
    predicate IsIOFenced() { code == IOError && subcode == IOFenced }

    /** `operator==` compares the codes and nothing else, so equal statuses
        agree on every predicate that tests the code alone. */
    function Equals(rhs: StatusValue): (b: bool)
      ensures b ==> ((IsOk() <==> rhs.IsOk()) && (IsNotFound() <==> rhs.IsNotFound())
        && (IsCorruption() <==> rhs.IsCorruption()) && (IsNotSupported() <==> rhs.IsNotSupported())
        && (IsInvalidArgument() <==> rhs.IsInvalidArgument()) && (IsIOError() <==> rhs.IsIOError())
        && (IsMergeInProgress() <==> rhs.IsMergeInProgress()) && (IsIncomplete() <==> rhs.IsIncomplete())
        && (IsShutdownInProgress() <==> rhs.IsShutdownInProgress()) && (IsTimedOut() <==> rhs.IsTimedOut())
        && (IsAborted() <==> rhs.IsAborted()) && (IsBusy() <==> rhs.IsBusy())
        && (IsExpired() <==> rhs.IsExpired()) && (IsTryAgain() <==> rhs.IsTryAgain())
        && (IsCompactionTooLarge() <==> rhs.IsCompactionTooLarge())
        && (IsColumnFamilyDropped() <==> rhs.IsColumnFamilyDropped()))
      ensures IsOk() && rhs.IsOk() ==> b
    {
      code == rhs.code
    }

    /** `operator!=`: the negation of `operator==`, hence symmetric too. */
    function NotEquals(rhs: StatusValue): (b: bool)
      ensures b <==> !rhs.Equals(this)
    {
      !Equals(rhs)
    }

    /** The Rust record this status renders through: a null state is an empty
        state vector. */
    function ToRs(): (r: RsStatus.Status)
      ensures r.code == code && r.subcode == subcode
      ensures state.Null? ==> r.state == []
    {
      RsStatus.Status(code, subcode, sev, retryable, dataLoss, scope,
        if state.Null? then [] else state.mem)
    }

    /** `ToString`: the Rust `to_string` of the same fields. "OK" for a
        message-less success; the sentinels panic. */
    function ToString(): (r: Result<string>)
      ensures r.Success? <==> code != MaxCode && subcode != MaxSubCode
      ensures r.Success? && state.Null? ==>
        r.value == RsStatus.CodePrefix(code).value + RsStatus.SubCodeText(subcode).value
      ensures IsOk() && subcode == None && state.Null? ==> r == Success("OK")
    {
      var r := ToRs().ToString();
      assert RsStatus.CodePrefix(Ok).value == "OK" && RsStatus.SubCodeText(None).value == "";
      assert "OK" + "" == "OK";
      r
    }
  }

  /** The moved-from and default state: Ok, no subcode, no error, no flags,
      scope 0 and no message. */
  function OK(): (r: StatusValue)
    ensures r.IsOk() && r.subcode == None && r.sev == NoError
    ensures !r.retryable && !r.dataLoss && r.scope == 0 && r.state.Null?
  {
    StatusValue(Ok, None, NoError, false, false, 0, Null)
  }

  /** The protected `Status(code, subcode)`; every `X(SubCode)` factory is
      this with its own code, e.g. `NotFound(sc)` is `FromCode(NotFound, sc)`. */
  function FromCode(code: Code, subcode: SubCode): (r: StatusValue)
    ensures r.code == code && r.subcode == subcode
    ensures r.sev == NoError && !r.retryable && !r.dataLoss && r.scope == 0 && r.state.Null?
  {
    StatusValue(code, subcode, NoError, false, false, 0, Null)
  }

  /** The protected `Status(code, subcode, retryable, data_loss, scope)`. */
  function FromCodeAndFlags(code: Code, subcode: SubCode, retryable: bool, dataLoss: bool, scope: Scope): (r: StatusValue)
    ensures r.code == code && r.subcode == subcode && r.sev == NoError && r.state.Null?
    ensures r.retryable == retryable && r.dataLoss == dataLoss && r.scope == scope
  {
    StatusValue(code, subcode, NoError, retryable, dataLoss, scope, Null)
  }

  /** The message text before truncation: `msg`, or `msg: msg2` when `msg2`
      is non-empty. */
  function JoinedMessage(msg: seq<byte>, msg2: seq<byte>): (r: seq<byte>)
    ensures |msg2| == 0 ==> r == msg
    ensures |msg2| > 0 ==> |r| == |msg| + 2 + |msg2| && r[..|msg|] == msg && r[|msg| + 2..] == msg2
  {
    if |msg2| > 0 then msg + [Colon, Space] + msg2 else msg
  }

  const Colon: byte := 0x3a
  const Space: byte := 0x20

  /** The state the message constructor stores: the joined message as a C
      string, so it ends at the first NUL of the buffer. */
  function MessageState(msg: seq<byte>, msg2: seq<byte>): (r: seq<byte>)
    ensures IsNulTerminated(r)
    ensures r <= JoinedMessage(msg, msg2) + [NUL]
    ensures NUL !in msg && NUL !in msg2 ==> r == JoinedMessage(msg, msg2) + [NUL]
  {
    var buffer := JoinedMessage(msg, msg2) + [NUL];
    assert IsCString(buffer) by { assert buffer[|buffer| - 1] == NUL; }
    if NUL !in msg && NUL !in msg2 then
      assert IsNulTerminated(buffer) by {
        forall i | 0 <= i < |buffer| - 1 ensures buffer[i] != NUL {
          if |msg2| > 0 && i >= |msg| + 2 { assert buffer[i] == msg2[i - |msg| - 2]; }
          else if i < |msg| { assert buffer[i] == msg[i]; }
        }
      }
      CharPtrToBytesOfTerminated(buffer);
      CharPtrToBytes(buffer)
    else
      CharPtrToBytes(buffer)
  }

  /** The buffer work of the message constructor: allocate `size + 1` bytes,
      copy `msg`, add ": " and `msg2` when `msg2` is non-empty, terminate, and
      hand the buffer to `set_state_unsafe`, which copies it as a C string. */
  method BuildState(msg: seq<byte>, msg2: seq<byte>) returns (state: seq<byte>)
    ensures state == MessageState(msg, msg2)
  {
    var len1 := |msg|;
    var len2 := |msg2|;
    var size := len1 + (if len2 > 0 then 2 + len2 else 0);
    var result := new byte[size + 1];
    for i := 0 to len1
      invariant result[..i] == msg[..i]
    {
      result[i] := msg[i];
    }
    if len2 > 0 {
      result[len1] := Colon;
      result[len1 + 1] := Space;
      for i := 0 to len2
        invariant result[..len1] == msg
        invariant result[len1] == Colon && result[len1 + 1] == Space
        invariant result[len1 + 2..len1 + 2 + i] == msg2[..i]
      {
        result[len1 + 2 + i] := msg2[i];
        assert result[len1 + 2..len1 + 2 + i + 1] == result[len1 + 2..len1 + 2 + i] + [msg2[i]];
      }
      assert result[..size] == msg + [Colon, Space] + msg2 by {
        assert result[..size] == result[..len1] + [result[len1], result[len1 + 1]] + result[len1 + 2..size];
      }
    }
    result[size] := NUL;
    assert result[..] == JoinedMessage(msg, msg2) + [NUL] by {
      assert result[..] == result[..size] + [result[size]];
    }
    assert result[..][size] == NUL;
    state := CharPtrToBytes(result[..]);
  }

  /** The message constructor. The subcode must not be the sentinel; the
      flags are cleared, the scope is 0 and the severity is the given one. */
  function WithMessage(code: Code, subcode: SubCode, msg: seq<byte>, msg2: seq<byte>, sev: Severity): (r: StatusValue)
    requires subcode != MaxSubCode
    ensures r.code == code && r.subcode == subcode && r.sev == sev
    ensures !r.retryable && !r.dataLoss && r.scope == 0
    ensures r.state == Ptr(MessageState(msg, msg2))
  {
    StatusValue(code, subcode, sev, false, false, 0, Ptr(MessageState(msg, msg2)))
  }

  /** The `X(msg, msg2)` factories: the message constructor with no subcode
      and no severity, e.g. `Corruption(msg, msg2)`. */
  function FromMessage(code: Code, msg: seq<byte>, msg2: seq<byte>): (r: StatusValue)
    ensures r.code == code && r.subcode == None && r.sev == NoError
    ensures r.state == Ptr(MessageState(msg, msg2))
  {
    WithMessage(code, None, msg, msg2, NoError)
  }

  /** `NotFound(sc, msg, msg2)`. */
  function NotFoundWithSubCode(sc: SubCode, msg: seq<byte>, msg2: seq<byte>): (r: StatusValue)
    requires sc != MaxSubCode
    ensures r.IsNotFound() && r.subcode == sc && r.state == Ptr(MessageState(msg, msg2))
  {
    WithMessage(NotFound, sc, msg, msg2, NoError)
  }

  function OkOverwritten(): (r: StatusValue)
    ensures r.IsOkOverwritten() && r.state.Null?
  {
    FromCode(Ok, Overwritten)
  }

  function NoSpace(): (r: StatusValue)
    ensures r.IsNoSpace() && r.state.Null?
  {
    FromCode(IOError, SubCode.NoSpace)
  }

  function NoSpaceWithMessage(msg: seq<byte>, msg2: seq<byte>): (r: StatusValue)
    ensures r.IsNoSpace() && r.state == Ptr(MessageState(msg, msg2))
  {
    WithMessage(IOError, SubCode.NoSpace, msg, msg2, NoError)
  }

  function MemoryLimit(): (r: StatusValue)
    ensures r.IsMemoryLimit() && r.state.Null?
  {
    FromCode(Aborted, SubCode.MemoryLimit)
  }

  function MemoryLimitWithMessage(msg: seq<byte>, msg2: seq<byte>): (r: StatusValue)
    ensures r.IsMemoryLimit() && r.state == Ptr(MessageState(msg, msg2))
  {
    WithMessage(Aborted, SubCode.MemoryLimit, msg, msg2, NoError)
  }

  function SpaceLimit(): (r: StatusValue)
    ensures r.IsIOError() && r.subcode == SubCode.SpaceLimit && r.state.Null?
  {
    FromCode(IOError, SubCode.SpaceLimit)
  }

  function SpaceLimitWithMessage(msg: seq<byte>, msg2: seq<byte>): (r: StatusValue)
    ensures r.IsIOError() && r.subcode == SubCode.SpaceLimit && r.state == Ptr(MessageState(msg, msg2))
  {
    WithMessage(IOError, SubCode.SpaceLimit, msg, msg2, NoError)
  }

  function PathNotFound(): (r: StatusValue)
    ensures r.IsPathNotFound() && r.IsIOError() && r.state.Null?
  {
    FromCode(IOError, SubCode.PathNotFound)
  }

  function PathNotFoundWithMessage(msg: seq<byte>, msg2: seq<byte>): (r: StatusValue)
    ensures r.IsPathNotFound() && r.IsIOError() && r.state == Ptr(MessageState(msg, msg2))
  {
    WithMessage(IOError, SubCode.PathNotFound, msg, msg2, NoError)
  }

  function TxnNotPrepared(): (r: StatusValue)
    ensures r.IsTxnNotPrepared() && r.state.Null?
  {
    FromCode(InvalidArgument, SubCode.TxnNotPrepared)
  }

  function TxnNotPreparedWithMessage(msg: seq<byte>, msg2: seq<byte>): (r: StatusValue)
    ensures r.IsTxnNotPrepared() && r.state == Ptr(MessageState(msg, msg2))
  {
    WithMessage(InvalidArgument, SubCode.TxnNotPrepared, msg, msg2, NoError)
  }

  /** `CopyAppendMessage`: a new status with the code, subcode and severity
      of `s` and the message `s`'s message + `delim` + `msg`. Reading the
      state as a `std::string` needs a non-null state. */
  function CopyAppendMessage(s: StatusValue, delim: seq<byte>, msg: seq<byte>): (r: StatusValue)
    requires s.state.Ptr? && IsCString(s.state.mem)
    requires s.subcode != MaxSubCode
    ensures r.code == s.code && r.subcode == s.subcode && r.sev == s.sev
    ensures !r.retryable && !r.dataLoss && r.scope == 0
    ensures NUL !in delim && NUL !in msg ==>
      r.state == Ptr(s.state.mem[..StrLen(s.state.mem)] + delim + msg + [NUL])
  {
    var old_message := s.state.mem[..StrLen(s.state.mem)];
    var r := WithMessage(s.code, s.subcode, old_message + delim + msg, [], s.sev);
    assert NUL !in old_message by {
      forall i | 0 <= i < |old_message| ensures old_message[i] != NUL { }
    }
    assert NUL !in delim && NUL !in msg ==> NUL !in old_message + delim + msg;
    r
  }

  /** Appending to a message keeps the old message as a prefix of the new one. */
  lemma CopyAppendMessageExtends(s: StatusValue, delim: seq<byte>, msg: seq<byte>)
    requires s.state.Ptr? && IsNulTerminated(s.state.mem)
    requires s.subcode != MaxSubCode
    requires NUL !in delim && NUL !in msg
    ensures CopyAppendMessage(s, delim, msg).state.Ptr?
    ensures
      var m := s.state.mem;
      CopyAppendMessage(s, delim, msg).state.mem == m[..|m| - 1] + delim + msg + [NUL]
  {
    CharPtrToBytesOfTerminated(s.state.mem);
  }

  /** The message of a message-constructed status comes back at the end of
      `ToString`, right after the code prefix when there is no subcode. */
  lemma {:induction false} MessageRoundTrip(code: Code, msg: seq<byte>, sev: Severity)
    requires code != MaxCode
    requires NUL !in msg
    ensures WithMessage(code, None, msg, [], sev).ToString() ==
      Success(RsStatus.CodePrefix(code).value + BytesToString(msg))
  {
    var s := WithMessage(code, None, msg, [], sev);
    assert s.state == Ptr(msg + [NUL]);
    var rs := s.ToRs();
    assert rs.state == msg + [NUL];
    assert rs.Message() == msg by { assert (msg + [NUL])[..|msg|] == msg; }
    var prefix := RsStatus.CodePrefix(code).value;
    assert RsStatus.SubCodeText(None).value == "";
    assert rs.ToString() == Success(prefix + "" + BytesToString(msg));
    assert prefix + "" == prefix;
  }

  /** A status holding the C string `m` renders as code text, subcode text,
      ": " when there is a subcode, and `m`. */
  lemma {:induction false} ToStringWithMessage(s: StatusValue, m: seq<byte>)
    requires s.code != MaxCode && s.subcode != MaxSubCode
    requires NUL !in m
    requires s.state == Ptr(m + [NUL])
    ensures s.ToString() == Success(RsStatus.CodePrefix(s.code).value + RsStatus.SubCodeText(s.subcode).value
      + (if s.subcode != None then ": " else "") + BytesToString(m))
  {
    var rs := s.ToRs();
    assert rs.state == m + [NUL];
    assert rs.Message() == m by { assert (m + [NUL])[..|m|] == m; }
    var head := RsStatus.CodePrefix(s.code).value + RsStatus.SubCodeText(s.subcode).value;
    if s.subcode == None {
      assert head + "" == head;
    }
  }

  /** `operator==` is an equivalence that only looks at the code: statuses
      with different subcodes and messages can be equal, and `!=` is its
      negation. */
  lemma EqualityComparesCodesOnly(a: StatusValue, b: StatusValue, c: StatusValue)
    ensures a.Equals(a)
    ensures a.Equals(b) ==> b.Equals(a)
    ensures a.Equals(b) && b.Equals(c) ==> a.Equals(c)
    ensures a.NotEquals(b) <==> !a.Equals(b)
    ensures a.Equals(b) <==> a.code == b.code
    ensures NoSpace().Equals(FromCode(IOError, None)) && NoSpace().IsNoSpace() && !FromCode(IOError, None).IsNoSpace()
  {
  }

  /** Every subcode-specific predicate implies the predicate of its code, and
      the factories satisfy the predicate they are named after. */
  lemma PredicatesAndFactories(s: StatusValue)
    ensures s.IsOkOverwritten() ==> s.IsOk()
    ensures s.IsLockLimit() ==> s.IsAborted()
    ensures s.IsDeadlock() ==> s.IsBusy()
    ensures s.IsNoSpace() ==> s.IsIOError()
    ensures s.IsMemoryLimit() ==> s.IsAborted()
    ensures s.IsPathNotFound() ==> s.IsIOError() || s.IsNotFound()
    ensures s.IsManualCompactionPaused() ==> s.IsIncomplete()
    ensures s.IsTxnNotPrepared() ==> s.IsInvalidArgument()
    ensures s.IsIOFenced() ==> s.IsIOError()
    ensures OK().IsOk() && !OK().IsOkOverwritten() && OkOverwritten().IsOk()
    ensures NoSpace().IsNoSpace() && MemoryLimit().IsMemoryLimit() && TxnNotPrepared().IsTxnNotPrepared()
  {
  }

  /** A `Status` object. */
  class Status {
    var code: Code
    var subcode: SubCode
    var sev: Severity
    var retryable: bool
    var dataLoss: bool
    var scope: Scope
    var state: CPtr

    function Value(): StatusValue
      reads this
    {
      StatusValue(code, subcode, sev, retryable, dataLoss, scope, state)
    }

    /** The default constructor: a success status. */
    constructor ()
      ensures Value() == OK()
    {
      code, subcode, sev := Ok, None, NoError;
      retryable, dataLoss, scope := false, false, 0;
      state := Null;
    }

    /** Construction from a factory result. */
    constructor FromValue(v: StatusValue)
      ensures Value() == v
    {
      code, subcode, sev := v.code, v.subcode, v.sev;
      retryable, dataLoss, scope := v.retryable, v.dataLoss, v.scope;
      state := v.state;
    }

    /** The copy constructor: every field, with the state copied. */
    constructor Copy(s: Status)
      ensures Value() == s.Value()
    {
      code, subcode, sev := s.code, s.subcode, s.sev;
      retryable, dataLoss, scope := s.retryable, s.dataLoss, s.scope;
      state := s.state;
    }

    /** Copy with another severity: every field of `s` but the severity. */
    constructor CopyWithSeverity(s: Status, sev': Severity)
      ensures Value() == s.Value().(sev := sev')
    {
      code, subcode, sev := s.code, s.subcode, sev';
      retryable, dataLoss, scope := s.retryable, s.dataLoss, s.scope;
      state := s.state;
    }

    /** The move constructor: start as a success status, then move-assign. */
    constructor Move(s: Status)
      modifies s
      ensures Value() == old(s.Value())
      ensures s.Value() == OK()
    {
      code, subcode, sev := Ok, None, NoError;
      retryable, dataLoss, scope := false, false, 0;
      state := Null;
      new;
      MoveAssign(s);
    }

    /** Copy assignment: takes every field of `s`; assigning an object to
        itself changes nothing. */
    method CopyAssign(s: Status)
      modifies this
      ensures Value() == old(s.Value())
      ensures this == s ==> Value() == old(Value())
    {
      if this != s {
        code := s.code;
        subcode := s.subcode;
        sev := s.sev;
        retryable := s.retryable;
        dataLoss := s.dataLoss;
        scope := s.scope;
        state := s.state;
      }
    }

    /** Move assignment: takes every field of `s` and leaves `s` a success
        status without a message; moving an object onto itself changes
        nothing. */
    method MoveAssign(s: Status)
      modifies this, s
      ensures this == s ==> Value() == old(Value())
      ensures this != s ==> Value() == old(s.Value()) && s.Value() == OK()
    {
      if this != s {
        code := s.code;
        s.code := Ok;
        subcode := s.subcode;
        s.subcode := None;
        sev := s.sev;
        s.sev := NoError;
        retryable := s.retryable;
        s.retryable := false;
        dataLoss := s.dataLoss;
        s.dataLoss := false;
        scope := s.scope;
        s.scope := 0;
        state := s.state;
        s.state := Null;
      }
    }
  }
}
