/** NUL-terminated C strings as seen from Rust (`CStr::from_ptr`), and the
    conversions of rocksdb-sys/src/common.rs. Memory is a sequence of bytes. */
module CStrings {
  import opened Wrappers

  /** A byte, as an unsigned value. */
  newtype byte = x: int | 0 <= x < 256

  const NUL: byte := 0

  /** A C pointer: null, or the bytes readable from the pointer onwards. */
  datatype CPtr = Null | Ptr(mem: seq<byte>)

  /** `CStr::from_ptr` demands that a NUL terminator is reachable. */
  predicate IsCString(mem: seq<byte>) {
    NUL in mem
  }

  /** Index of the first NUL byte, i.e. `strlen`. */
  function StrLen(mem: seq<byte>): (n: nat)
    requires IsCString(mem)
    ensures n < |mem| && mem[n] == NUL
    ensures forall i :: 0 <= i < n ==> mem[i] != NUL
  {
    if mem[0] == NUL then 0 else StrLen(mem[1..]) + 1
  }

  /** `CStr::from_ptr(p).to_bytes_with_nul().to_vec()`. */
  function BytesWithNul(mem: seq<byte>): (r: seq<byte>)
    requires IsCString(mem)
  {
    mem[..StrLen(mem) + 1]
  }

  /** A byte string that a `Vec` built by `to_bytes_with_nul` can hold:
      exactly one NUL, at the end. */
  predicate IsNulTerminated(v: seq<byte>) {
    |v| > 0 && v[|v| - 1] == NUL && forall i :: 0 <= i < |v| - 1 ==> v[i] != NUL
  }

  /** `char_ptr_to_bytes` (common.rs:4-6): the bytes up to and including the
      first NUL, so the last byte is the only NUL. */
  function CharPtrToBytes(mem: seq<byte>): (r: seq<byte>)
    requires IsCString(mem)
    ensures IsNulTerminated(r)
    ensures r <= mem
    ensures |r| == StrLen(mem) + 1
  {
    BytesWithNul(mem)
  }

  /** `char_ptr_to_bytes_and_size` (common.rs:10-14): the vector and its
      length without the terminator. */
  function CharPtrToBytesAndSize(mem: seq<byte>): (r: (seq<byte>, nat))
    requires IsCString(mem)
    ensures r.0 == CharPtrToBytes(mem)
    ensures r.1 + 1 == |r.0| && r.1 == StrLen(mem)
    ensures r.0[r.1] == NUL && r.0[..r.1] == mem[..r.1]
  {
    var data := CharPtrToBytes(mem);
    (data, |data| - 1)
  }

  /** Copying a string that already is NUL-terminated gives it back unchanged. */
  lemma {:induction false} CharPtrToBytesOfTerminated(v: seq<byte>)
    requires IsNulTerminated(v)
    ensures IsCString(v) && CharPtrToBytes(v) == v
  {
    assert v[|v| - 1] == NUL;
    var n := StrLen(v);
    assert n == |v| - 1;
  }

  /** Bytes as characters, one to one (exact for ASCII text). */
  function ByteToChar(b: byte): char {
    (b as int) as char
  }

  function BytesToString(s: seq<byte>): (r: string)
    ensures |r| == |s|
    ensures forall i :: 0 <= i < |s| ==> r[i] == ByteToChar(s[i])
  {
    seq(|s|, i requires 0 <= i < |s| => ByteToChar(s[i]))
  }

  function CharToByte(c: char): byte
    requires c as int < 256
  {
    (c as int) as byte
  }

  /** Characters below 256 as bytes; string literals of the model are ASCII. */
  function StringToBytes(s: string): (r: seq<byte>)
    requires forall i :: 0 <= i < |s| ==> s[i] as int < 256
    ensures |r| == |s|
    ensures forall i :: 0 <= i < |s| ==> r[i] == CharToByte(s[i])
  {
    seq(|s|, i requires 0 <= i < |s| => CharToByte(s[i]))
  }

  /** Text below 256 survives the round trip through bytes, and so do bytes
      through text. */
  lemma {:induction false} StringBytesRoundTrip(s: string, b: seq<byte>)
    requires forall i :: 0 <= i < |s| ==> s[i] as int < 256
    ensures BytesToString(StringToBytes(s)) == s
    ensures forall i :: 0 <= i < |b| ==> BytesToString(b)[i] as int < 256
    ensures StringToBytes(BytesToString(b)) == b
  {
    var r := BytesToString(StringToBytes(s));
    assert forall i :: 0 <= i < |s| ==> r[i] == s[i];
    var t := StringToBytes(BytesToString(b));
    assert forall i :: 0 <= i < |b| ==> t[i] == b[i];
  }
}
