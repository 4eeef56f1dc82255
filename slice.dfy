/** Byte views. The Rust `Slice` struct of rocksdb-sys holds a copy of the
    C string it was made from (terminator included) and a size; the C++
    `Slice` and `PinnableSlice` classes keep one such struct as `slice_` and
    change it through its setters. The bytes a slice refers to are the first
    `size` bytes of that copy. */
module Slices {
  import opened Wrappers
  import opened CStrings

  /** `memcmp` over the first `n` bytes: zero when they agree, otherwise the
      difference of the first pair of bytes that differ. */
  function Memcmp(a: seq<byte>, b: seq<byte>, n: nat): (r: int)
    requires n <= |a| && n <= |b|
    ensures r == 0 <==> a[..n] == b[..n]
    ensures r < 0 <==> LexLess(a[..n], b[..n])
    ensures r > 0 <==> LexLess(b[..n], a[..n])
    decreases n
  {
    if n == 0 then 0
    else if a[0] != b[0] then a[0] as int - b[0] as int
    else
      assert a[..n][1..] == a[1..][..n - 1] && b[..n][1..] == b[1..][..n - 1];
      Memcmp(a[1..], b[1..], n - 1)
  }

  /** Lexicographic order over unsigned bytes, a proper prefix first: the
      reference definition the comparisons are proved against. */
  predicate LexLess(a: seq<byte>, b: seq<byte>) {
    if |a| == 0 then |b| > 0
    else if |b| == 0 then false
    else a[0] < b[0] || (a[0] == b[0] && LexLess(a[1..], b[1..]))
  }

  /** The lexicographic order is a strict total order. */
  lemma {:induction false} LexLessIsStrictTotal(a: seq<byte>, b: seq<byte>)
    ensures !(LexLess(a, b) && LexLess(b, a))
    ensures !LexLess(a, a)
    ensures a != b ==> LexLess(a, b) || LexLess(b, a)
  {
    if |a| > 0 && |b| > 0 {
      LexLessIsStrictTotal(a[1..], b[1..]);
      if a[0] == b[0] && a != b {
        assert a == [a[0]] + a[1..] && b == [b[0]] + b[1..];
      }
    }
    if |a| > 0 {
      LexLessIsStrictTotal(a[1..], a[1..]);
    }
  }

  /** Comparing the common-length prefixes decides the order, unless they are
      equal, in which case the shorter sequence comes first. */
  lemma {:induction false} LexLessByPrefix(a: seq<byte>, b: seq<byte>, m: nat)
    requires m <= |a| && m <= |b|
    ensures LexLess(a[..m], b[..m]) ==> LexLess(a, b)
    ensures a[..m] == b[..m] && (m == |a| || m == |b|) ==> (LexLess(a, b) <==> |a| < |b|)
    decreases m
  {
    if m > 0 {
      assert a[..m][1..] == a[1..][..m - 1] && b[..m][1..] == b[1..][..m - 1];
      LexLessByPrefix(a[1..], b[1..], m - 1);
    } else if |a| > 0 && |b| > 0 {
      LexLessIsStrictTotal(a, b);
    }
  }

  /** Length of the longest common prefix. */
  function CommonPrefixLength(a: seq<byte>, b: seq<byte>): (r: nat)
    ensures r <= |a| && r <= |b|
    ensures a[..r] == b[..r]
    ensures r < |a| && r < |b| ==> a[r] != b[r]
  {
    if |a| == 0 || |b| == 0 || a[0] != b[0] then 0
    else
      var k := CommonPrefixLength(a[1..], b[1..]);
      assert a[..k + 1] == [a[0]] + a[1..][..k];
      assert b[..k + 1] == [b[0]] + b[1..][..k];
      k + 1
  }

  /** A common prefix that cannot be extended is the longest one. */
  lemma {:induction false} CommonPrefixLengthUnique(a: seq<byte>, b: seq<byte>, k: nat)
    requires k <= |a| && k <= |b| && a[..k] == b[..k]
    requires k < |a| && k < |b| ==> a[k] != b[k]
    ensures k == CommonPrefixLength(a, b)
    decreases k
  {
    if k > 0 {
      assert a[0] == a[..k][0] && b[0] == b[..k][0];
      assert a[1..][..k - 1] == a[..k][1..] && b[1..][..k - 1] == b[..k][1..];
      CommonPrefixLengthUnique(a[1..], b[1..], k - 1);
    }
  }

  /** The `Slice` struct of rocksdb-sys: `data` is the copied C string and
      `size` the number of bytes the slice refers to. */
  datatype RsSlice = RsSlice(data: seq<byte>, size: nat)
  {
    /** The referenced bytes lie inside `data`, so reading them is defined. */
    predicate InBounds() {
      size <= |data|
    }

    /** `data` is a copy made by `char_ptr_to_bytes` and the view stops before
        its terminator; then the view holds no NUL byte. */
    predicate Valid() {
      IsNulTerminated(data) && size < |data|
    }

    /** The bytes `[data(), data() + size())`. */
    function View(): (v: seq<byte>)
      requires InBounds()
      ensures |v| == size
      ensures Valid() ==> NUL !in v
    {
      data[..size]
    }

    /** `set_size` (slice.rs:18-20): the size changes, the bytes do not. */
    function SetSize(n: nat): (r: RsSlice)
      ensures r.size == n && r.data == data
      ensures InBounds() && n <= size ==> r.InBounds() && r.View() == View()[..n]
    {
      this.(size := n)
    }

    /** `set_data_ptr` (slice.rs:26-30): panics on a null pointer; otherwise
        the bytes become a copy of the C string and the size stays. */
    function SetDataPtr(d: CPtr): (r: Result<RsSlice>)
      requires d.Ptr? ==> IsCString(d.mem)
      ensures r.Success? <==> d.Ptr?
      ensures r.Success? ==> r.value.data == CharPtrToBytes(d.mem) && r.value.size == size
    {
      if d.Null? then Panic("assertion failed: !d.is_null()")
      else Success(this.(data := CharPtrToBytes(d.mem)))
    }

    /** `Slice::empty`: the referenced bytes are none. */
    function Empty(): (b: bool)
      requires InBounds()
      ensures b <==> View() == []
    {
      size == 0
    }

    /** `Slice::operator[]`, whose caller guarantees `n < size()`. */
    function At(n: nat): (b: byte)
      requires InBounds() && n < size
      ensures b == View()[n]
    {
      data[n]
    }

    /** `Slice::starts_with`: `x` is a prefix of this slice. */
    function StartsWith(x: RsSlice): (r: bool)
      requires InBounds() && x.InBounds()
      ensures r <==> x.View() <= View()
    {
      size >= x.size && Memcmp(data, x.data, x.size) == 0
    }

    /** `Slice::ends_with`: `x` is a suffix of this slice. */
    function EndsWith(x: RsSlice): (r: bool)
      requires InBounds() && x.InBounds()
      ensures r <==> x.size <= size && View()[size - x.size..] == x.View()
    {
      size >= x.size &&
        (assert data[size - x.size..][..x.size] == View()[size - x.size..];
         Memcmp(data[size - x.size..], x.data, x.size) == 0)
    }

    /** `Slice::compare`: `memcmp` over the shorter length, then the shorter
        slice first. Negative, zero and positive mean less, equal and greater
        in the lexicographic order. */
    function Compare(b: RsSlice): (r: int)
      requires InBounds() && b.InBounds()
      ensures r < 0 <==> LexLess(View(), b.View())
      ensures r == 0 <==> View() == b.View()
      ensures r > 0 <==> LexLess(b.View(), View())
    {
      var minLen := if size < b.size then size else b.size;
      var r := Memcmp(data, b.data, minLen);
      assert View()[..minLen] == data[..minLen] && b.View()[..minLen] == b.data[..minLen];
      LexLessByPrefix(View(), b.View(), minLen);
      LexLessByPrefix(b.View(), View(), minLen);
      LexLessIsStrictTotal(View(), b.View());
      if r == 0 then
        if size < b.size then -1
        else if size > b.size then 1
        else assert View() == View()[..minLen]; 0
      else r
    }

    /** `Slice::difference_offset`: the first position where the slices
        differ, counted by a loop up to the shorter length. */
    method DifferenceOffset(b: RsSlice) returns (off: nat)
      requires InBounds() && b.InBounds()
      ensures off <= size && off <= b.size
      ensures View()[..off] == b.View()[..off]
      ensures off < size && off < b.size ==> At(off) != b.At(off)
      ensures off == CommonPrefixLength(View(), b.View())
    {
      var len := if size < b.size then size else b.size;
      off := 0;
      while off < len
        invariant off <= len
        invariant data[..off] == b.data[..off]
      {
        if data[off] != b.data[off] {
          break;
        }
        assert data[..off + 1] == data[..off] + [data[off]];
        assert b.data[..off + 1] == b.data[..off] + [b.data[off]];
        off := off + 1;
      }
      assert View()[..off] == data[..off] && b.View()[..off] == b.data[..off];
      CommonPrefixLengthUnique(View(), b.View(), off);
    }
  }

  /** `operator==` on slices: same size and same bytes. */
  function Equals(x: RsSlice, y: RsSlice): (r: bool)
    requires x.InBounds() && y.InBounds()
    ensures r <==> x.View() == y.View()
  {
    x.size == y.size && (assert x.View() == x.data[..x.size]; Memcmp(x.data, y.data, x.size) == 0)
  }

  /** `operator!=`. */
  function NotEquals(x: RsSlice, y: RsSlice): (r: bool)
    requires x.InBounds() && y.InBounds()
    ensures r <==> x.View() != y.View()
  {
    !Equals(x, y)
  }

  /** The comparison is antisymmetric, reports equality exactly as
      `operator==` does, and agrees with prefix tests on the common case of a
      proper prefix. */
  lemma CompareLaws(a: RsSlice, b: RsSlice)
    requires a.InBounds() && b.InBounds()
    ensures (a.Compare(b) < 0 <==> b.Compare(a) > 0) && (a.Compare(b) == 0 <==> b.Compare(a) == 0)
    ensures a.Compare(b) == 0 <==> Equals(a, b)
    ensures a.StartsWith(b) && a.size > b.size ==> a.Compare(b) > 0
  {
    if a.StartsWith(b) && a.size > b.size {
      LexLessByPrefix(b.View(), a.View(), b.size);
      assert a.View()[..b.size] == b.View();
    }
  }

  /** A slice starts and ends with itself and with the empty slice. */
  lemma {:induction false} AffixesOfSelf(a: RsSlice, e: RsSlice)
    requires a.InBounds() && e.InBounds() && e.Empty()
    ensures a.StartsWith(a) && a.EndsWith(a)
    ensures a.StartsWith(e) && a.EndsWith(e)
    ensures CommonPrefixLength(a.View(), a.View()) == a.size
  {
    assert a.View()[a.size - a.size..] == a.View();
    assert e.View() == [];
    assert a.View()[a.size..] == [];
    CommonPrefixLengthUnique(a.View(), a.View(), a.size);
  }

  /** `Slice::default` (slice.rs:37-44): a lone terminator and size zero. */
  function Default(): (r: RsSlice)
    ensures r.Valid() && r.View() == [] && r.data == [NUL]
  {
    RsSlice([NUL], 0)
  }

  /** `Slice::from_raw_with_size` (slice.rs:6-10): panics on a null pointer;
      copies the C string and takes the size as given, so the view lies in
      the copy exactly when `n` does not pass the terminator, and then it
      is the first `n` bytes at the pointer. */
  function FromRawWithSize(d: CPtr, n: nat): (r: Result<RsSlice>)
    requires d.Ptr? ==> IsCString(d.mem)
    ensures r.Success? <==> d.Ptr?
    ensures r.Success? ==> r.value.data == CharPtrToBytes(d.mem) && r.value.size == n
    ensures r.Success? ==> (r.value.Valid() <==> n <= StrLen(d.mem))
    ensures r.Success? && r.value.Valid() ==> r.value.View() == d.mem[..n]
  {
    if d.Null? then Panic("assertion failed: !d.is_null()")
    else Success(RsSlice(CharPtrToBytes(d.mem), n))
  }

  /** Making a slice of bytes `s` that hold a NUL, as `Slice(const
      std::string&)` does through `from_raw_with_size`, keeps the size
      `|s|` but copies only the bytes before the first NUL: the slice is
      not valid, and the copy does not reach past the size. For the bytes
      "A", NUL, "B" the copy is "A", NUL and the size 3 passes its end. */
  lemma EmbeddedNulLosesBytes(s: seq<byte>)
    requires NUL in s
    ensures IsCString(s + [NUL])
    ensures FromRawWithSize(Ptr(s + [NUL]), |s|).Success?
    ensures !FromRawWithSize(Ptr(s + [NUL]), |s|).value.Valid()
    ensures |FromRawWithSize(Ptr(s + [NUL]), |s|).value.data| <= |s|
    ensures s == [65, NUL, 66] ==>
      FromRawWithSize(Ptr(s + [NUL]), |s|).value == RsSlice([65, NUL], 3)
  {
    var mem := s + [NUL];
    assert mem[|s|] == NUL;
    var k :| 0 <= k < |s| && s[k] == NUL;
    assert mem[k] == NUL;
    assert StrLen(mem) <= k;
    if s == [65, NUL, 66] {
      assert mem[0] != NUL;
      assert StrLen(mem) == 1;
      assert CharPtrToBytes(mem) == mem[..2];
    }
  }

  /** `Slice::from_raw` (slice.rs:12-16): panics on a null pointer;
      otherwise the view is the whole C string, terminator excluded. */
  function FromRaw(d: CPtr): (r: Result<RsSlice>)
    requires d.Ptr? ==> IsCString(d.mem)
    ensures r.Success? <==> d.Ptr?
    ensures r.Success? ==> r.value.Valid() && r.value.size == StrLen(d.mem)
    ensures r.Success? ==> r.value.data == CharPtrToBytes(d.mem) && r.value.View() == d.mem[..StrLen(d.mem)]
  {
    if d.Null? then Panic("assertion failed: !d.is_null()")
    else
      var (data, size) := CharPtrToBytesAndSize(d.mem);
      Success(RsSlice(data, size))
  }

  /** Copying a slice's own bytes, as `remove_prefix` does, gives back the
      part from `n` on. */
  lemma SuffixIsCString(s: RsSlice, n: nat)
    requires s.Valid() && n <= s.size
    ensures IsNulTerminated(s.data[n..])
    ensures IsCString(s.data[n..]) && CharPtrToBytes(s.data[n..]) == s.data[n..]
  {
    CharPtrToBytesOfTerminated(s.data[n..]);
  }

  /** The C++ `Slice`: a wrapper around one `RsSlice` that its mutators
      replace through the Rust setters. */
  class Slice {
    var slice: RsSlice

    /** `Slice()`: the Rust default. */
    constructor ()
      ensures slice == Default()
    {
      slice := Default();
    }

    /** `Slice(const char* d, size_t n)`, and the `std::string`,
        `std::string_view` and `rust::Vec` constructors that call it. */
    constructor FromPtrAndSize(d: seq<byte>, n: nat)
      requires IsCString(d)
      ensures Success(slice) == FromRawWithSize(Ptr(d), n)
    {
      slice := FromRawWithSize(Ptr(d), n).value;
    }

    /** `Slice(const char* s)`: the whole C string. */
    constructor FromCString(s: seq<byte>)
      requires IsCString(s)
      ensures Success(slice) == FromRaw(Ptr(s))
      ensures slice.Valid() && slice.View() == s[..StrLen(s)]
    {
      slice := FromRaw(Ptr(s)).value;
    }

    /** `set_data`: the bytes become a copy of the C string at `d`. */
    method SetData(d: seq<byte>)
      requires IsCString(d)
      modifies this
      ensures Success(slice) == old(slice).SetDataPtr(Ptr(d))
    {
      slice := slice.SetDataPtr(Ptr(d)).value;
    }

    /** `set_size`. */
    method SetSize(n: nat)
      modifies this
      ensures slice == old(slice).SetSize(n)
    {
      slice := slice.SetSize(n);
    }

    /** `clear`: the slice refers to the empty string literal. */
    method Clear()
      modifies this
      ensures slice == Default()
      ensures slice.Empty()
    {
      SetData([NUL]);
      SetSize(0);
    }

    /** `remove_prefix`: the data pointer advances by `n` (the C string
        found there is copied again) and the size drops by `n`. On a valid
        slice the view loses its first `n` bytes and stays valid. */
    method RemovePrefix(n: nat)
      requires slice.InBounds() && n <= slice.size && IsCString(slice.data[n..])
      modifies this
      ensures slice == RsSlice(CharPtrToBytes(old(slice.data)[n..]), old(slice.size) - n)
      ensures old(slice.Valid()) ==> slice.Valid() && slice.View() == old(slice.View())[n..]
    {
      if slice.Valid() {
        SuffixIsCString(slice, n);
      }
      SetData(slice.data[n..]);
      SetSize(slice.size - n);
    }

    /** `remove_suffix`: only the size drops by `n`. */
    method RemoveSuffix(n: nat)
      requires slice.InBounds() && n <= slice.size
      modifies this
      ensures slice.data == old(slice.data) && slice.InBounds()
      ensures old(slice.Valid()) ==> slice.Valid()
      ensures slice.View() == old(slice.View())[..old(slice.size) - n]
    {
      SetSize(slice.size - n);
    }
  }

  /** `std::string::erase(pos, n)`: removes up to `n` bytes from `pos`. */
  function Erase(s: seq<byte>, pos: nat, n: nat): (r: seq<byte>)
    requires pos <= |s|
    ensures pos + n <= |s| ==> |r| == |s| - n
    ensures pos <= |r| && r[..pos] == s[..pos]
    ensures NUL !in s ==> NUL !in r
  {
    var end := if pos + n <= |s| then pos + n else |s|;
    s[..pos] + s[end..]
  }

  /** A `Slice` that is either pinned to bytes owned elsewhere, or refers to
      its own buffer `buf`. Cleanup registration is not modelled. */
  class PinnableSlice {
    var slice: RsSlice
    var pinned: bool
    var buf: seq<byte>

    /** The slice refers to a C string it copied, the buffer holds no NUL
        (it is copied through `set_data` as a C string), and an unpinned
        slice is no longer than its buffer. */
    predicate Valid()
      reads this
    {
      slice.Valid() && NUL !in buf && (!pinned ==> slice.size <= |buf|)
    }

    /** `PinnableSlice()`: an empty slice over its own empty buffer. */
    constructor ()
      ensures Valid() && !pinned && buf == [] && slice == Default()
    {
      slice := Default();
      pinned := false;
      buf := [];
    }

    /** `PinnableSlice(std::string* buf)`: an empty slice over the given
        buffer. */
    constructor WithBuffer(b: seq<byte>)
      ensures !pinned && buf == b && slice == Default()
      ensures Valid() <==> NUL !in b
    {
      slice := Default();
      pinned := false;
      buf := b;
    }

    /** `IsPinned`: whether the slice refers to bytes owned elsewhere; when
        it does not, it lies within the owned buffer. */
    function IsPinned(): (p: bool)
      reads this
      ensures Valid() && !p ==> slice.size <= |buf|
    {
      pinned
    }

    /** `GetSelf`: the owned buffer, which an unpinned slice never outruns
        and which holds no NUL. */
    function GetSelf(): (b: seq<byte>)
      reads this
      ensures Valid() ==> NUL !in b && (!IsPinned() ==> slice.size <= |b|)
    {
      buf
    }

    /** `PinSlice`: the slice refers to the bytes of `s` and is pinned. */
    method PinSlice(s: Slice)
      requires Valid() && !pinned && s.slice.Valid()
      modifies this
      ensures Valid() && pinned && buf == old(buf)
      ensures slice == s.slice
    {
      pinned := true;
      CharPtrToBytesOfTerminated(s.slice.data);
      slice := slice.SetDataPtr(Ptr(s.slice.data)).value;
      slice := slice.SetSize(s.slice.size);
    }

    /** `PinSelf()`: the slice refers to the buffer (copied as the C string
        `buf` followed by its terminator). */
    method PinSelf()
      requires !pinned
      modifies this
      ensures !pinned && buf == old(buf)
      ensures slice.size == |buf| && slice.data == CharPtrToBytes(buf + [NUL])
      ensures NUL !in buf ==> Valid() && slice.View() == buf
    {
      var mem := buf + [NUL];
      assert mem[|buf|] == NUL;
      if NUL !in buf {
        assert IsNulTerminated(mem);
        CharPtrToBytesOfTerminated(mem);
      }
      slice := slice.SetDataPtr(Ptr(mem)).value;
      slice := slice.SetSize(|buf|);
    }

    /** `PinSelf(const Slice&)`: the buffer takes a copy of the bytes of `s`
        and the slice refers to it. */
    method PinSelfFrom(s: Slice)
      requires !pinned && s.slice.Valid()
      modifies this
      ensures Valid() && !pinned
      ensures buf == s.slice.View() && slice.View() == buf
    {
      buf := s.slice.View();
      PinSelf();
    }

    /** `remove_prefix`: a pinned slice advances its view; an unpinned one
        erases the first `n` bytes of its buffer and refers to the rest. */
    method RemovePrefix(n: nat)
      requires Valid() && n <= slice.size
      modifies this
      ensures Valid() && pinned == old(pinned)
      ensures pinned ==> buf == old(buf) && slice.View() == old(slice.View())[n..]
      ensures !pinned ==> buf == old(buf)[n..] && slice.View() == buf
    {
      if pinned {
        SuffixIsCString(slice, n);
        slice := slice.SetDataPtr(Ptr(slice.data[n..])).value;
        slice := slice.SetSize(slice.size - n);
      } else {
        buf := Erase(buf, 0, n);
        PinSelf();
      }
    }

    /** `remove_suffix`: a pinned slice shrinks; an unpinned one erases the
        `n` bytes of its buffer that end at the current size. */
    method RemoveSuffix(n: nat)
      requires Valid() && n <= slice.size
      modifies this
      ensures Valid() && pinned == old(pinned)
      ensures pinned ==> buf == old(buf) && slice.View() == old(slice.View())[..old(slice.size) - n]
      ensures !pinned ==> buf == Erase(old(buf), old(slice.size) - n, n) && slice.View() == buf
    {
      if pinned {
        slice := slice.SetSize(slice.size - n);
      } else {
        buf := Erase(buf, slice.size - n, n);
        PinSelf();
      }
    }

    /** `Reset`: unpinned, size zero; the buffer is kept. */
    method Reset()
      requires Valid()
      modifies this
      ensures Valid() && !pinned && buf == old(buf)
      ensures slice == old(slice).SetSize(0) && slice.View() == []
    {
      pinned := false;
      slice := slice.SetSize(0);
    }
  }

  /** When an unpinned slice shows its whole buffer, as it does after
      `PinSelf`, editing it trims the view exactly as the plain `Slice`
      operations do. */
  lemma UnpinnedEditsTrimTheView(buf: seq<byte>, n: nat)
    requires n <= |buf|
    ensures Erase(buf, 0, n) == buf[n..]
    ensures Erase(buf, |buf| - n, n) == buf[..|buf| - n]
  {
  }
}
