/** The value types of internal keys and their debug names, shared by the
    `get_type_name` of rocksdb-sys/src/debug.rs and rocksdb-rs/src/debug.rs. */
module ValueTypes {
  import opened CStrings

  /** `ValueType` is a shared enum over a `u8`: a field of that type can
      hold any byte, declared or not. */
  type ValueType = byte

  const TypeDeletion: ValueType := 0x0
  const TypeValue: ValueType := 0x1
  const TypeMerge: ValueType := 0x2
  const TypeLogData: ValueType := 0x3
  const TypeColumnFamilyDeletion: ValueType := 0x4
  const TypeColumnFamilyValue: ValueType := 0x5
  const TypeColumnFamilyMerge: ValueType := 0x6
  const TypeSingleDeletion: ValueType := 0x7
  const TypeColumnFamilySingleDeletion: ValueType := 0x8
  const TypeBeginPrepareXID: ValueType := 0x9
  const TypeEndPrepareXID: ValueType := 0xA
  const TypeCommitXID: ValueType := 0xB
  const TypeRollbackXID: ValueType := 0xC
  const TypeNoop: ValueType := 0xD
  const TypeColumnFamilyRangeDeletion: ValueType := 0xE
  const TypeRangeDeletion: ValueType := 0xF
  const TypeColumnFamilyBlobIndex: ValueType := 0x10
  const TypeBlobIndex: ValueType := 0x11
  const TypeBeginPersistedPrepareXID: ValueType := 0x12
  const TypeBeginUnprepareXID: ValueType := 0x13
  const TypeDeletionWithTimestamp: ValueType := 0x14
  const TypeCommitXIDAndTimestamp: ValueType := 0x15
  const TypeWideColumnEntity: ValueType := 0x16
  const TypeColumnFamilyWideColumnEntity: ValueType := 0x17
  /** One past the last valid type, only used for validation. */
  const TypeMaxValid: ValueType := 0x18
  /** Not used for storing records. */
  const MaxValue: ValueType := 0x7F

  /** The values the enum declares: 0x00 … 0x18 and 0x7F. */
  predicate IsDeclared(t: ValueType) {
    t <= TypeMaxValid || t == MaxValue
  }

  /** `get_type_name`: the declared variant's own name, "Invalid" for any
      other byte. */
  function TypeName(t: ValueType): (name: string)
    ensures name == "Invalid" <==> !IsDeclared(t)
    ensures IsDeclared(t) ==> 8 <= |name|
  {
    match t
    case 0x0 => "TypeDeletion"
    case 0x1 => "TypeValue"
    case 0x2 => "TypeMerge"
    case 0x3 => "TypeLogData"
    case 0x4 => "TypeColumnFamilyDeletion"
    case 0x5 => "TypeColumnFamilyValue"
    case 0x6 => "TypeColumnFamilyMerge"
    case 0x7 => "TypeSingleDeletion"
    case 0x8 => "TypeColumnFamilySingleDeletion"
    case 0x9 => "TypeBeginPrepareXID"
    case 0xA => "TypeEndPrepareXID"
    case 0xB => "TypeCommitXID"
    case 0xC => "TypeRollbackXID"
    case 0xD => "TypeNoop"
    case 0xE => "TypeColumnFamilyRangeDeletion"
    case 0xF => "TypeRangeDeletion"
    case 0x10 => "TypeColumnFamilyBlobIndex"
    case 0x11 => "TypeBlobIndex"
    case 0x12 => "TypeBeginPersistedPrepareXID"
    case 0x13 => "TypeBeginUnprepareXID"
    case 0x14 => "TypeDeletionWithTimestamp"
    case 0x15 => "TypeCommitXIDAndTimestamp"
    case 0x16 => "TypeWideColumnEntity"
    case 0x17 => "TypeColumnFamilyWideColumnEntity"
    case 0x18 => "TypeMaxValid"
    case 0x7F => "MaxValue"
    case _ => "Invalid"
  }

  /** Different declared types have different names, so a name other than
      "Invalid" tells the type. */
  lemma TypeNameInjective(a: ValueType, b: ValueType)
    requires IsDeclared(a) && IsDeclared(b) && TypeName(a) == TypeName(b)
    ensures a == b
  {
    if a < b {
      DistinctNames(a, b);
    } else if b < a {
      DistinctNames(b, a);
    }
  }

  lemma DistinctNames(a: ValueType, b: ValueType)
    requires a < b && IsDeclared(b)
    ensures TypeName(a) != TypeName(b)
  {
    if b <= 0xC {
      DistinctNamesLow(a, b);
    } else if b <= 0x18 {
      DistinctNamesHigh(a, b);
    }
  }

  lemma DistinctNamesLow(a: ValueType, b: ValueType)
    requires a < b <= 0xC
    ensures TypeName(a) != TypeName(b)
  {
  }

  lemma DistinctNamesHigh(a: ValueType, b: ValueType)
    requires a < b && 0xC < b <= 0x18
    ensures TypeName(a) != TypeName(b)
  {
  }
}

/** The byte-string `KeyVersion` of rocksdb-sys/src/debug.rs. */
module SysDebug {
  import opened Wrappers
  import opened CStrings
  import opened ValueTypes

  newtype u64 = x: int | 0 <= x < 0x1_0000_0000_0000_0000

  /** One version of a user key, as `GetAllKeyVersions` reports it. */
  datatype KeyVersion = KeyVersion(userKey: seq<byte>, value: seq<byte>, sequence: u64,
                                   valueType: ValueType)
  {
    /** `get_type_name`. */
    function GetTypeName(): (name: string)
      ensures name == "Invalid" <==> !IsDeclared(valueType)
    {
      TypeName(valueType)
    }
  }

  /** `KeyVersion::new`: all four fields stored as given. */
  function New(userKey: seq<byte>, value: seq<byte>, sequence: u64, valueType: ValueType): (kv: KeyVersion)
    ensures kv.userKey == userKey && kv.value == value
    ensures kv.sequence == sequence && kv.valueType == valueType
  {
    KeyVersion(userKey, value, sequence, valueType)
  }

  /** `KeyVersion::default()`: empty key and value, sequence 0, a deletion. */
  function Default(): (kv: KeyVersion)
    ensures kv.userKey == [] && kv.value == []
    ensures kv.sequence == 0 && kv.valueType == TypeDeletion
    ensures kv.GetTypeName() == "TypeDeletion"
  {
    KeyVersion([], [], 0, TypeDeletion)
  }

  /** `default_key_version`. */
  function DefaultKeyVersion(): (kv: KeyVersion)
    ensures kv == Default()
  {
    Default()
  }

  /** `new_key_version`: both pointers must be non-null (a failed `assert!`
      panics, the key's first); the key and the value are copied up to and
      including their NUL terminators. Being `unsafe`, it leaves to its
      caller that a non-null pointer reaches a NUL. */
  function NewKeyVersion(userKey: CPtr, value: CPtr, sequence: u64, valueType: ValueType): (r: Result<KeyVersion>)
    requires userKey.Ptr? ==> IsCString(userKey.mem)
    requires value.Ptr? ==> IsCString(value.mem)
    ensures r.Success? <==> userKey.Ptr? && value.Ptr?
    ensures userKey.Null? ==> r == Panic("assertion failed: !user_key.is_null()")
    ensures userKey.Ptr? && value.Null? ==> r == Panic("assertion failed: !value.is_null()")
    ensures r.Success? ==>
      && IsNulTerminated(r.value.userKey) && r.value.userKey <= userKey.mem
      && IsNulTerminated(r.value.value) && r.value.value <= value.mem
      && r.value.sequence == sequence && r.value.valueType == valueType
  {
    if userKey.Null? then
      Panic("assertion failed: !user_key.is_null()")
    else if value.Null? then
      Panic("assertion failed: !value.is_null()")
    else
      Success(New(CharPtrToBytes(userKey.mem), CharPtrToBytes(value.mem), sequence, valueType))
  }

  /** `new_key_version_from_cstrings`: the C++ strings' buffers, which C++
      terminates with a NUL, passed to `new_key_version`. `CStr::from_ptr`
      stops at the first NUL, so a string holding a NUL is cut there; one
      without keeps all its bytes, with the terminator appended. */
  function NewKeyVersionFromCStrings(userKey: seq<byte>, value: seq<byte>, sequence: u64, valueType: ValueType): (kv: KeyVersion)
    ensures IsNulTerminated(kv.userKey) && kv.userKey[..|kv.userKey| - 1] <= userKey
    ensures IsNulTerminated(kv.value) && kv.value[..|kv.value| - 1] <= value
    ensures NUL !in userKey ==> kv.userKey == userKey + [NUL]
    ensures NUL !in value ==> kv.value == value + [NUL]
    ensures kv.sequence == sequence && kv.valueType == valueType
  {
    var k := CxxBuffer(userKey);
    var v := CxxBuffer(value);
    var r := NewKeyVersion(k, v, sequence, valueType);
    CStringPrefix(userKey);
    CStringPrefix(value);
    r.value
  }

  /** What `CxxString::as_ptr` points at: the bytes, then C++'s terminator. */
  function CxxBuffer(s: seq<byte>): (p: CPtr)
    ensures p.Ptr? && IsCString(p.mem)
  {
    Ptr(s + [NUL])
  }

  /** The C string read from a C++ string's buffer is the string cut at its
      first NUL, and all of it when it has none. */
  lemma CStringPrefix(s: seq<byte>)
    ensures IsCString(s + [NUL])
    ensures CharPtrToBytes(s + [NUL])[..|CharPtrToBytes(s + [NUL])| - 1] <= s
    ensures NUL !in s ==> CharPtrToBytes(s + [NUL]) == s + [NUL]
  {
    var m := s + [NUL];
    assert m[|s|] == NUL;
    var n := StrLen(m);
    if n == |s| {
      assert m[..n] == s;
    } else {
      assert s[n] == NUL;
    }
  }
}

/** The text `KeyVersion` of rocksdb-rs/src/debug.rs. */
module RsDebug {
  import opened ValueTypes

  newtype u64 = x: int | 0 <= x < 0x1_0000_0000_0000_0000

  datatype KeyVersion = KeyVersion(userKey: string, value: string, sequence: u64,
                                   valueType: ValueType)
  {
    /** `get_type_name`, the same mapping as in rocksdb-sys. */
    function GetTypeName(): (name: string)
      ensures name == "Invalid" <==> !IsDeclared(valueType)
    {
      TypeName(valueType)
    }
  }

  /** `KeyVersion::new`: all four fields stored as given. */
  function New(userKey: string, value: string, sequence: u64, valueType: ValueType): (kv: KeyVersion)
    ensures kv.userKey == userKey && kv.value == value
    ensures kv.sequence == sequence && kv.valueType == valueType
  {
    KeyVersion(userKey, value, sequence, valueType)
  }

  /** `KeyVersion::default()`: empty strings, sequence 0, a deletion. */
  function Default(): (kv: KeyVersion)
    ensures kv.userKey == "" && kv.value == ""
    ensures kv.sequence == 0 && kv.valueType == TypeDeletion
  {
    KeyVersion("", "", 0, TypeDeletion)
  }

  /** `new_key_version`: `KeyVersion::new` on the same arguments. */
  function NewKeyVersion(userKey: string, value: string, sequence: u64, valueType: ValueType): (kv: KeyVersion)
    ensures kv == New(userKey, value, sequence, valueType)
  {
    New(userKey, value, sequence, valueType)
  }

  /** `default_key_version`. */
  function DefaultKeyVersion(): (kv: KeyVersion)
    ensures kv == Default()
  {
    Default()
  }
}
