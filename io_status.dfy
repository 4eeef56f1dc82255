/** The C++ `IOStatus` class: a `Status` held by value (`inner_status`) whose
    fields the setters, copy and move operations update directly, and whose
    scope names the extent of an I/O error. */
module CppIOStatus {
  import opened CStrings
  import opened StatusCodes
  import opened CppStatus

  /** `IOErrorScope`, an unscoped enum over `unsigned char`. */
  const IOErrorScopeFileSystem: Scope := 0
  const IOErrorScopeFile: Scope := 1
  const IOErrorScopeRange: Scope := 2
  const IOErrorScopeMax: Scope := 3

  /** The default and `(code, subcode)` state of an `IOStatus`: no flags, no
      message, file-system scope. */
  function IOFromCode(code: Code, subcode: SubCode): (r: StatusValue)
    ensures r.code == code && r.subcode == subcode && r.sev == NoError
    ensures !r.retryable && !r.dataLoss && r.scope == IOErrorScopeFileSystem && r.state.Null?
  {
    FromCodeAndFlags(code, subcode, false, false, IOErrorScopeFileSystem)
  }

  /** The message constructor: an error code (never Ok) and a real subcode;
      the state is built as for `Status`, the scope is the file system. */
  function IOWithMessage(code: Code, subcode: SubCode, msg: seq<byte>, msg2: seq<byte>): (r: StatusValue)
    requires code != Ok
    requires subcode != MaxSubCode
    ensures r.code == code && r.subcode == subcode && r.sev == NoError
    ensures !r.retryable && !r.dataLoss && r.scope == IOErrorScopeFileSystem
    ensures r.state == Ptr(MessageState(msg, msg2))
  {
    IOFromCode(code, subcode).(state := Ptr(MessageState(msg, msg2)))
  }

  /** `NoSpace()`, `PathNotFound()` and `IOFenced()` are I/O errors with their
      subcode; the default is a file-system-scoped success. */
  lemma IOFactories()
    ensures IOFromCode(IOError, NoSpace).IsNoSpace()
    ensures IOFromCode(IOError, PathNotFound).IsPathNotFound()
    ensures IOFromCode(IOError, IOFenced).IsIOFenced()
    ensures IOFromCode(Ok, None).IsOk() && IOFromCode(Ok, None).scope == IOErrorScopeFileSystem
  {
  }

  class IOStatus {
    var code: Code
    var subcode: SubCode
    var sev: Severity
    var retryable: bool
    var dataLoss: bool
    var scope: Scope
    var state: CPtr

    /** The fields of `inner_status`; also what `operator Status()` returns:
        the whole inner status, severity included. */
    function Value(): (r: StatusValue)
      reads this
      ensures r.code == code && r.subcode == subcode && r.sev == sev && r.state == state
      ensures r.retryable == retryable && r.dataLoss == dataLoss && r.scope == scope
    {
      StatusValue(code, subcode, sev, retryable, dataLoss, scope, state)
    }

    /** The default constructor. */
    constructor ()
      ensures Value() == IOFromCode(Ok, None)
    {
      code, subcode, sev := Ok, None, NoError;
      retryable, dataLoss, scope := false, false, IOErrorScopeFileSystem;
      state := Null;
    }

    /** Construction from a factory result. */
    constructor FromValue(v: StatusValue)
      ensures Value() == v
    {
      code, subcode, sev := v.code, v.subcode, v.sev;
      retryable, dataLoss, scope := v.retryable, v.dataLoss, v.scope;
      state := v.state;
    }

    /** The copy constructor copies `inner_status` whole, severity included. */
    constructor Copy(s: IOStatus)
      ensures Value() == s.Value()
    {
      code, subcode, sev := s.code, s.subcode, s.sev;
      retryable, dataLoss, scope := s.retryable, s.dataLoss, s.scope;
      state := s.state;
    }

    /** The move constructor: a default `IOStatus`, then move assignment. */
    constructor Move(s: IOStatus)
      modifies s
      ensures Value() == old(s.Value()).(sev := NoError)
      ensures s.Value() == old(s.Value()).(code := Ok, subcode := None, scope := IOErrorScopeFileSystem, state := Null)
    {
      code, subcode, sev := Ok, None, NoError;
      retryable, dataLoss, scope := false, false, IOErrorScopeFileSystem;
      state := Null;
      new;
      MoveAssign(s);
    }

    method SetRetryable(retryable': bool)
      modifies this
      ensures Value() == old(Value()).(retryable := retryable')
    {
      retryable := retryable';
    }

    method SetDataLoss(dataLoss': bool)
      modifies this
      ensures Value() == old(Value()).(dataLoss := dataLoss')
    {
      dataLoss := dataLoss';
    }

    method SetScope(scope': Scope)
      modifies this
      ensures Value() == old(Value()).(scope := scope')
    {
      scope := scope';
    }

    /** The getters read the flags and the scope of `inner_status`. */
    function GetRetryable(): (r: bool)
      reads this
      ensures r == Value().retryable
    {
      retryable
    }

    function GetDataLoss(): (r: bool)
      reads this
      ensures r == Value().dataLoss
    {
      dataLoss
    }

    function GetScope(): (r: Scope)
      reads this
      ensures r == Value().scope
    {
      scope
    }

    /** Copy assignment: code, subcode, flags, scope and state of `s`; the
        severity stays. Assigning an object to itself changes nothing. */
    method CopyAssign(s: IOStatus)
      modifies this
      ensures Value() == old(s.Value()).(sev := old(sev))
    {
      if this != s {
        code := s.code;
        subcode := s.subcode;
        retryable := s.retryable;
        dataLoss := s.dataLoss;
        scope := s.scope;
        state := s.state;
      }
    }

    /** Move assignment: as copy assignment, then `s` gets code Ok, no subcode,
        file-system scope and no message, but keeps its severity and its
        retryable and data-loss flags. Moving onto itself changes nothing. */
    method MoveAssign(s: IOStatus)
      modifies this, s
      ensures this == s ==> Value() == old(Value())
      ensures this != s ==> Value() == old(s.Value()).(sev := old(sev))
      ensures this != s ==>
        s.Value() == old(s.Value()).(code := Ok, subcode := None, scope := IOErrorScopeFileSystem, state := Null)
    {
      if this != s {
        code := s.code;
        s.code := Ok;
        subcode := s.subcode;
        s.subcode := None;
        retryable := s.retryable;
        dataLoss := s.dataLoss;
        scope := s.scope;
        s.scope := IOErrorScopeFileSystem;
        state := s.state;
        s.state := Null;
      }
    }

    /** `operator==` compares the codes of the inner statuses only, so it
        agrees with `Status::operator==` on the converted values. */
    function Equals(rhs: IOStatus): (b: bool)
      reads this, rhs
      ensures b <==> Value().Equals(rhs.Value())
    {
      code == rhs.code
    }

    /** `operator!=`: the negation of `operator==`. */
    function NotEquals(rhs: IOStatus): (b: bool)
      reads this, rhs
      ensures b <==> !rhs.Equals(this)
    {
      !Equals(rhs)
    }
  }

  /** `==` on `IOStatus` is an equivalence that looks at the code alone:
      flags, scope, severity, subcode and message play no part, and `!=` is
      its negation. */
  lemma IOEqualityComparesCodesOnly(a: IOStatus, b: IOStatus, c: IOStatus)
    ensures a.Equals(a)
    ensures a.Equals(b) ==> b.Equals(a)
    ensures a.Equals(b) && b.Equals(c) ==> a.Equals(c)
    ensures a.NotEquals(b) <==> !a.Equals(b)
    ensures a.Equals(b) <==> a.Value().code == b.Value().code
    ensures a.Equals(b) <==> a.Value().Equals(b.Value().(subcode := None, sev := NoError, retryable := false,
      dataLoss := false, scope := IOErrorScopeFileSystem, state := Null))
  {
  }

  /** Setting a field and reading it back returns the value set, and leaves
      the other getters alone. */
  method SetThenGet(io: IOStatus, retryable: bool, dataLoss: bool, scope: Scope)
    returns (r: bool, d: bool, sc: Scope)
    modifies io
    ensures r == retryable && d == dataLoss && sc == scope
    ensures io.Value() == old(io.Value()).(retryable := retryable, dataLoss := dataLoss, scope := scope)
  {
    io.SetRetryable(retryable);
    io.SetDataLoss(dataLoss);
    io.SetScope(scope);
    r, d, sc := io.GetRetryable(), io.GetDataLoss(), io.GetScope();
  }

  /** `status_to_io_status`: a default `IOStatus` whose `inner_status` is
      move-assigned from `s`; `s` is left a success status. */
  method StatusToIOStatus(s: Status) returns (io: IOStatus)
    modifies s
    ensures fresh(io)
    ensures io.Value() == old(s.Value())
    ensures s.Value() == OK()
  {
    io := new IOStatus();
    var inner := new Status.Move(s);
    io.code, io.subcode, io.sev := inner.code, inner.subcode, inner.sev;
    io.retryable, io.dataLoss, io.scope := inner.retryable, inner.dataLoss, inner.scope;
    io.state := inner.state;
  }
}
