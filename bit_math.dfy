/** The integer bit helpers of util/math.h and the two Rust `math.rs` files:
    `floor_log2_*`, `trailing_zeros_*`, `count_ones_*`, `parity_*`,
    `swap_bytes_*`, `reverse_bits_*` and `DownwardInvolution` /
    `downward_involution_*`, for the eight types i8 … u64.

    A value of a `w`-bit type is an `int` in the type's range; its bit
    pattern is the sequence of its `w` two's-complement bits, least
    significant first. The 64-bit `r` of `DownwardInvolution` is such a
    sequence of 64 bits. */
module BitMath {
  import opened Wrappers

  function Pow2(n: nat): (r: nat)
    ensures r >= 1
  {
    if n == 0 then 1 else 2 * Pow2(n - 1)
  }

  lemma {:induction false} Pow2Monotone(a: nat, b: nat)
    requires a <= b
    ensures Pow2(a) <= Pow2(b)
    decreases b
  {
    if a < b {
      Pow2Monotone(a, b - 1);
    }
  }

  /** The widths of the Rust integer types. */
  datatype Width = W8 | W16 | W32 | W64 {
    /** `size_of::<T>()`. */
    function Bytes(): nat {
      match this
      case W8 => 1
      case W16 => 2
      case W32 => 4
      case W64 => 8
    }

    /** The number of xor-shift steps `DownwardInvolution` runs for the
        width: log2 of the width in bits. */
    function StepCount(): (n: nat)
      ensures 3 <= n <= 6
    {
      match this
      case W8 => 3
      case W16 => 4
      case W32 => 5
      case W64 => 6
    }

    function Bits(): (n: nat)
      ensures n == 8 * Bytes() && 8 <= n <= 64
    {
      match this
      case W8 => 8
      case W16 => 16
      case W32 => 32
      case W64 => 64
    }
  }

  /** The width in bits is 2 to the number of steps. */
  lemma BitsIsPow2(w: Width)
    ensures w.Bits() == Pow2(w.StepCount())
  {
    assert Pow2(3) == 8 && Pow2(4) == 16 && Pow2(5) == 32 && Pow2(6) == 64 by {
      assert Pow2(1) == 2 && Pow2(2) == 4;
    }
  }

  /** An integer type: its width and whether it is signed. */
  datatype IntType = IntType(width: Width, signed: bool) {
    function Min(): int {
      if signed then -(Pow2(width.Bits() - 1) as int) else 0
    }

    function Max(): int {
      if signed then Pow2(width.Bits() - 1) - 1 else Pow2(width.Bits()) - 1
    }

    predicate Contains(v: int) {
      Min() <= v <= Max()
    }
  }

  const I8 := IntType(W8, true)
  const I16 := IntType(W16, true)
  const I32 := IntType(W32, true)
  const I64 := IntType(W64, true)
  const U8 := IntType(W8, false)
  const U16 := IntType(W16, false)
  const U32 := IntType(W32, false)
  const U64 := IntType(W64, false)

  // ---------------------------------------------------------------------
  // Bit patterns
  // ---------------------------------------------------------------------

  /** The low `n` two's-complement bits of `v`, least significant first
      (`/` and `%` round towards minus infinity here, so negative values
      get their two's-complement bits). `BitsOf(v, 64)` is `v as u64`. */
  function BitsOf(v: int, n: nat): (s: seq<bool>)
    ensures |s| == n
    decreases n
  {
    if n == 0 then [] else [v % 2 == 1] + BitsOf(v / 2, n - 1)
  }

  /** The unsigned number a bit pattern spells. */
  function Value(s: seq<bool>): (x: nat)
    ensures x < Pow2(|s|)
  {
    if s == [] then 0 else (if s[0] then 1 else 0) + 2 * Value(s[1..])
  }

  /** The bit pattern of a value of type `t`. */
  function Bits(v: int, t: IntType): (s: seq<bool>)
    ensures |s| == t.width.Bits()
  {
    BitsOf(v, t.width.Bits())
  }

  /** `r as T` for a `T`-wide pattern: the unsigned value, less 2^w when the
      type is signed and the top bit is set. */
  function FromBits(s: seq<bool>, t: IntType): (v: int)
    requires |s| == t.width.Bits()
    ensures t.Contains(v)
    ensures v < 0 <==> t.signed && s[|s| - 1]
  {
    ValueTopBit(s);
    if t.signed && s[|s| - 1] then Value(s) - Pow2(|s|) else Value(s)
  }

  /** The top bit of a pattern contributes 2^(n-1). */
  lemma {:induction false} ValueTopBit(s: seq<bool>)
    requires |s| >= 1
    ensures Value(s) == Value(s[..|s| - 1]) + (if s[|s| - 1] then Pow2(|s| - 1) else 0)
  {
    if |s| > 1 {
      ValueTopBit(s[1..]);
      assert s[1..][..|s| - 2] == s[..|s| - 1][1..];
    }
  }

  /** Reading the bits of a value back gives the value, shifted into
      0 .. 2^n - 1 when negative. */
  lemma {:induction false} ValueOfBitsOf(v: int, n: nat)
    requires -(Pow2(n) as int) <= v < Pow2(n)
    decreases n
    ensures Value(BitsOf(v, n)) == if v < 0 then v + Pow2(n) else v
  {
    if n > 0 {
      ValueOfBitsOf(v / 2, n - 1);
      assert BitsOf(v, n)[1..] == BitsOf(v / 2, n - 1);
    }
  }

  lemma {:induction false} BitsOfValue(s: seq<bool>)
    ensures BitsOf(Value(s), |s|) == s
  {
    if s != [] {
      BitsOfValue(s[1..]);
      var x := Value(s);
      assert x % 2 == 1 <==> s[0];
      assert x / 2 == Value(s[1..]);
      assert s == [s[0]] + s[1..];
    }
  }

  /** Values 2^n apart have the same low `n` bits. */
  lemma {:induction false} BitsOfPeriodic(x: int, n: nat)
    ensures BitsOf(x - Pow2(n), n) == BitsOf(x, n)
    decreases n
  {
    if n > 0 {
      BitsOfPeriodic(x / 2, n - 1);
      assert (x - Pow2(n)) / 2 == x / 2 - Pow2(n - 1);
      assert (x - Pow2(n)) % 2 == x % 2;
    }
  }

  /** The low `m` bits are a prefix of the low `n` bits. */
  lemma {:induction false} BitsOfPrefix(v: int, n: nat, m: nat)
    requires m <= n
    ensures BitsOf(v, n)[..m] == BitsOf(v, m)
    decreases n
  {
    if m > 0 {
      BitsOfPrefix(v / 2, n - 1, m - 1);
      assert BitsOf(v, n)[..m] == [v % 2 == 1] + BitsOf(v / 2, n - 1)[..m - 1];
    }
  }

  /** A value of a type survives the round trip through its pattern, and a
      pattern through its value. */
  lemma PatternRoundTrip(v: int, s: seq<bool>, t: IntType)
    requires t.Contains(v) && |s| == t.width.Bits()
    ensures FromBits(Bits(v, t), t) == v
    ensures Bits(FromBits(s, t), t) == s
  {
    var n := t.width.Bits();
    Pow2Monotone(n - 1, n);
    ValueOfBitsOf(v, n);
    var b := Bits(v, t);
    ValueTopBit(b);
    BitsOfValue(s);
    if t.signed && s[n - 1] {
      BitsOfPeriodic(Value(s), n);
    }
  }

  // ---------------------------------------------------------------------
  // Bits of a bit index
  // ---------------------------------------------------------------------

  /** Bit `k` of the index `i`. */
  function BitOf(i: nat, k: nat): bool
  {
    if k == 0 then i % 2 == 1 else BitOf(i / 2, k - 1)
  }

  /** Adding 2^k to an index flips its bit `k`. */
  lemma {:induction false} AddPow2FlipsBit(i: nat, k: nat)
    ensures BitOf(i + Pow2(k), k) == !BitOf(i, k)
  {
    if k > 0 {
      assert (i + Pow2(k)) / 2 == i / 2 + Pow2(k - 1);
      AddPow2FlipsBit(i / 2, k - 1);
    }
  }

  /** Adding 2^k to an index whose bit `k` is clear leaves its other bits. */
  lemma {:induction false} AddPow2KeepsOtherBits(i: nat, j: nat, k: nat)
    requires j != k && !BitOf(i, k)
    ensures BitOf(i + Pow2(k), j) == BitOf(i, j)
  {
    if j == 0 {
      assert Pow2(k) % 2 == 0;
    } else if k == 0 {
      assert (i + 1) / 2 == i / 2;
    } else {
      assert (i + Pow2(k)) / 2 == i / 2 + Pow2(k - 1);
      AddPow2KeepsOtherBits(i / 2, j - 1, k - 1);
    }
  }

  /** Below 2^m, an index whose bit `k` is clear (k < m) can take 2^k more. */
  lemma {:induction false} ClearBitFits(i: nat, k: nat, m: nat)
    requires k < m && i < Pow2(m) && !BitOf(i, k)
    ensures i + Pow2(k) < Pow2(m)
  {
    var p := Pow2(m - 1);
    assert Pow2(m) == 2 * p;
    if k == 0 {
      assert i % 2 == 0 && i < 2 * p;
    } else {
      ClearBitFits(i / 2, k - 1, m - 1);
      assert i / 2 + Pow2(k - 1) <= p - 1;
      assert i <= 2 * (i / 2) + 1;
    }
  }

  /** An index below 2^k has bit `k` clear. */
  lemma {:induction false} SmallIndexBit(i: nat, k: nat)
    requires i < Pow2(k)
    ensures !BitOf(i, k)
  {
    if k > 0 {
      SmallIndexBit(i / 2, k - 1);
    }
  }

  // ---------------------------------------------------------------------
  // Word operations on 64-bit patterns
  // ---------------------------------------------------------------------

  /** `a ^ b`. */
  function Xor(a: seq<bool>, b: seq<bool>): (c: seq<bool>)
    requires |a| == |b|
    ensures |c| == |a|
  {
    seq(|a|, i requires 0 <= i < |a| => a[i] != b[i])
  }

  /** `a & b`. */
  function And(a: seq<bool>, b: seq<bool>): (c: seq<bool>)
    requires |a| == |b|
    ensures |c| == |a|
  {
    seq(|a|, i requires 0 <= i < |a| => a[i] && b[i])
  }

  /** `a >> d`, a logical shift: bit `i` takes bit `i + d`, or 0. */
  function ShiftRight(a: seq<bool>, d: nat): (c: seq<bool>)
    ensures |c| == |a|
  {
    seq(|a|, i requires 0 <= i < |a| => i + d < |a| && a[i + d])
  }

  /** The mask of xor-shift step `k` in an `n`-bit word: the bits whose
      index has bit `k` set. For 64 bits these are the constants
      0xaaaaaaaaaaaaaaaa (k = 0), 0xcccccccccccccccc, 0xf0f0f0f0f0f0f0f0,
      0xff00ff00ff00ff00, 0xffff0000ffff0000 and 0xffffffff00000000 (k = 5,
      which the source leaves implicit in `r >> 32`). */
  function Mask(k: nat, n: nat): (m: seq<bool>)
    ensures |m| == n
  {
    seq(n, i requires 0 <= i < n => BitOf(i, k))
  }

  /** Whether xor-shift step `k` flips bit `i` of `r`: bit `k` of `i` is
      clear and bit `i + 2^k` of `r` is set. */
  predicate Takes(r: seq<bool>, i: nat, k: nat)
  {
    !BitOf(i, k) && i + Pow2(k) < |r| && r[i + Pow2(k)]
  }

  /** Xor-shift step `k`, `r ^= (r & mask_k) >> 2^k`, read bit by bit. */
  function XorShift(r: seq<bool>, k: nat): (x: seq<bool>)
    ensures |x| == |r|
  {
    seq(|r|, i requires 0 <= i < |r| => r[i] != Takes(r, i, k))
  }

  /** The masked step of the source is the bitwise step. */
  lemma MaskedStep(r: seq<bool>, k: nat)
    ensures Xor(r, ShiftRight(And(r, Mask(k, |r|)), Pow2(k))) == XorShift(r, k)
  {
    forall i | 0 <= i < |r|
      ensures Xor(r, ShiftRight(And(r, Mask(k, |r|)), Pow2(k)))[i] == XorShift(r, k)[i]
    {
      AddPow2FlipsBit(i, k);
    }
  }

  /** The unmasked first step `r ^= r >> 32` of a 64-bit word is step 5. */
  lemma UnmaskedStep(r: seq<bool>)
    requires |r| == 64
    ensures Xor(r, ShiftRight(r, 32)) == XorShift(r, 5)
  {
    assert Pow2(5) == 32 by {
      assert Pow2(2) == 4;
    }
    forall i | 0 <= i < 64
      ensures Xor(r, ShiftRight(r, 32))[i] == XorShift(r, 5)[i]
    {
      if i < 32 {
        SmallIndexBit(i, 5);
      }
    }
  }

  /** Steps `n - 1` down to 0, the highest first, as the source runs them. */
  function Steps(r: seq<bool>, n: nat): (x: seq<bool>)
    ensures |x| == |r|
    decreases n
  {
    if n == 0 then r else Steps(XorShift(r, n - 1), n - 1)
  }

  /** Each step undoes itself. */
  lemma XorShiftInvolution(r: seq<bool>, k: nat)
    ensures XorShift(XorShift(r, k), k) == r
  {
    var x := XorShift(r, k);
    forall i | 0 <= i < |r|
      ensures XorShift(x, k)[i] == r[i]
    {
      AddPow2FlipsBit(i, k);
      assert Takes(x, i, k) == Takes(r, i, k);
    }
  }

  /** What steps `j` then `k` leave in bit `i`: the bit, the bits the two
      steps take in, and the bit both together reach. */
  lemma TwoSteps(r: seq<bool>, j: nat, k: nat, i: nat)
    requires j != k && i < |r|
    ensures XorShift(XorShift(r, j), k)[i] ==
      (((r[i] != Takes(r, i, j)) != Takes(r, i, k)) !=
       (!BitOf(i, j) && !BitOf(i, k) && i + Pow2(j) + Pow2(k) < |r| && r[i + Pow2(j) + Pow2(k)]))
  {
    var x := XorShift(r, j);
    var pk := i + Pow2(k);
    if !BitOf(i, k) && pk < |r| {
      AddPow2KeepsOtherBits(i, j, k);
      assert x[pk] == (r[pk] != Takes(r, pk, j));
    }
  }

  /** Two different steps commute. */
  lemma XorShiftsCommute(r: seq<bool>, j: nat, k: nat)
    requires j != k
    ensures XorShift(XorShift(r, j), k) == XorShift(XorShift(r, k), j)
  {
    var a := XorShift(XorShift(r, j), k);
    var b := XorShift(XorShift(r, k), j);
    forall i | 0 <= i < |r|
      ensures a[i] == b[i]
    {
      TwoSteps(r, j, k, i);
      TwoSteps(r, k, j, i);
    }
  }

  /** A step above the first `n` commutes with them. */
  lemma {:induction false} XorShiftCommutesWithSteps(r: seq<bool>, k: nat, n: nat)
    requires n <= k
    ensures Steps(XorShift(r, k), n) == XorShift(Steps(r, n), k)
    decreases n
  {
    if n > 0 {
      XorShiftsCommute(r, k, n - 1);
      XorShiftCommutesWithSteps(XorShift(r, n - 1), k, n - 1);
    }
  }

  /** Running the first `n` steps twice gives the pattern back. */
  lemma {:induction false} StepsInvolution(r: seq<bool>, n: nat)
    ensures Steps(Steps(r, n), n) == r
    decreases n
  {
    if n > 0 {
      var q := XorShift(r, n - 1);
      XorShiftCommutesWithSteps(Steps(q, n - 1), n - 1, n - 1);
      StepsInvolution(q, n - 1);
      XorShiftInvolution(r, n - 1);
      XorShiftCommutesWithSteps(q, n - 1, n - 1);
      StepsInvolution(r, n - 1);
    }
  }

  /** Each step distributes over xor. */
  lemma XorShiftLinear(a: seq<bool>, b: seq<bool>, k: nat)
    requires |a| == |b|
    ensures XorShift(Xor(a, b), k) == Xor(XorShift(a, k), XorShift(b, k))
  {
    var c := Xor(a, b);
    forall i | 0 <= i < |a|
      ensures XorShift(c, k)[i] == Xor(XorShift(a, k), XorShift(b, k))[i]
    {
      assert Takes(c, i, k) == (Takes(a, i, k) != Takes(b, i, k));
    }
  }

  lemma {:induction false} StepsLinear(a: seq<bool>, b: seq<bool>, n: nat)
    requires |a| == |b|
    ensures Steps(Xor(a, b), n) == Xor(Steps(a, n), Steps(b, n))
    decreases n
  {
    if n > 0 {
      XorShiftLinear(a, b, n - 1);
      StepsLinear(XorShift(a, n - 1), XorShift(b, n - 1), n - 1);
    }
  }

  /** Bits `j` and up of `s` are all clear: `s` has at least `|s| - j`
      leading zeros, its highest set bit is below `j`. */
  predicate ClearFrom(s: seq<bool>, j: nat)
  {
    forall i | j <= i < |s| :: !s[i]
  }

  /** A step only brings bits down, so it keeps leading zeros. */
  lemma XorShiftKeepsClear(s: seq<bool>, k: nat, j: nat)
    requires ClearFrom(s, j)
    ensures ClearFrom(XorShift(s, k), j)
  {
  }

  lemma {:induction false} StepsKeepClear(s: seq<bool>, n: nat, j: nat)
    requires ClearFrom(s, j)
    ensures ClearFrom(Steps(s, n), j)
    decreases n
  {
    if n > 0 {
      XorShiftKeepsClear(s, n - 1, j);
      StepsKeepClear(XorShift(s, n - 1), n - 1, j);
    }
  }

  /** The steps keep the highest set bit: bits `j` and up are clear after
      them exactly when they were before. */
  lemma StepsClearIff(s: seq<bool>, n: nat, j: nat)
    ensures ClearFrom(s, j) <==> ClearFrom(Steps(s, n), j)
  {
    if ClearFrom(s, j) {
      StepsKeepClear(s, n, j);
    }
    if ClearFrom(Steps(s, n), j) {
      StepsKeepClear(Steps(s, n), n, j);
      StepsInvolution(s, n);
    }
  }

  /** Below 2^m, steps under `m` never reach past bit 2^m - 1. */
  lemma XorShiftPrefix(r: seq<bool>, k: nat, m: nat)
    requires k < m && Pow2(m) <= |r|
    ensures XorShift(r, k)[..Pow2(m)] == XorShift(r[..Pow2(m)], k)
  {
    var p := Pow2(m);
    forall i | 0 <= i < p
      ensures XorShift(r, k)[i] == XorShift(r[..p], k)[i]
    {
      if !BitOf(i, k) {
        ClearBitFits(i, k, m);
      }
    }
  }

  /** So the low 2^m bits after the first `n <= m` steps depend only on the
      low 2^m bits before them. */
  lemma {:induction false} StepsPrefix(r: seq<bool>, n: nat, m: nat)
    requires n <= m && Pow2(m) <= |r|
    ensures Steps(r, n)[..Pow2(m)] == Steps(r[..Pow2(m)], n)
    decreases n
  {
    if n > 0 {
      StepsPrefix(XorShift(r, n - 1), n - 1, m);
      XorShiftPrefix(r, n - 1, m);
    }
  }

  // ---------------------------------------------------------------------
  // DownwardInvolution
  // ---------------------------------------------------------------------

  /** `DownwardInvolution(v)` for a value of type `t`: the width's steps
      applied to its pattern. */
  function DownwardInvolutionOf(v: int, t: IntType): int
    requires t.Contains(v)
  {
    FromBits(Steps(Bits(v, t), t.width.StepCount()), t)
  }

  lemma SmallPowers()
    ensures Pow2(1) == 2 && Pow2(2) == 4 && Pow2(3) == 8
    ensures Pow2(4) == 16 && Pow2(5) == 32
  {
  }

  /** The source's straight-line xor-shifts on the 64-bit `r`, the higher
      three only for types wide enough, then `r as T`. */
  method DownwardInvolution(v: int, t: IntType) returns (d: int)
    requires t.Contains(v)
    ensures d == DownwardInvolutionOf(v, t)
  {
    SmallPowers();
    var r := BitsOf(v, 64);
    ghost var r0 := r;
    ghost var n := t.width.StepCount();
    ghost var k := n;
    if t.width.Bytes() > 4 {
      UnmaskedStep(r);
      r := Xor(r, ShiftRight(r, 32));
      k := k - 1;
    }
    assert Steps(r0, n) == Steps(r, k) && k == if n < 5 then n else 5;
    if t.width.Bytes() > 2 {
      MaskedStep(r, 4);
      r := Xor(r, ShiftRight(And(r, Mask(4, 64)), 16));
      k := k - 1;
    }
    assert Steps(r0, n) == Steps(r, k) && k == if n < 4 then n else 4;
    if t.width.Bytes() > 1 {
      MaskedStep(r, 3);
      r := Xor(r, ShiftRight(And(r, Mask(3, 64)), 8));
      k := k - 1;
    }
    assert Steps(r0, n) == Steps(r, k) && k == 3;
    MaskedStep(r, 2);
    r := Xor(r, ShiftRight(And(r, Mask(2, 64)), 4));
    MaskedStep(r, 1);
    r := Xor(r, ShiftRight(And(r, Mask(1, 64)), 2));
    MaskedStep(r, 0);
    r := Xor(r, ShiftRight(And(r, Mask(0, 64)), 1));
    assert r == Steps(r0, n);
    BitsIsPow2(t.width);
    StepsPrefix(r0, n, n);
    BitsOfPrefix(v, 64, t.width.Bits());
    d := FromBits(r[..t.width.Bits()], t);
  }

  /** The pattern of `DownwardInvolution(v)` is the steps applied to the
      pattern of `v`. */
  lemma BitsOfDownwardInvolution(v: int, t: IntType)
    requires t.Contains(v)
    ensures Bits(DownwardInvolutionOf(v, t), t) == Steps(Bits(v, t), t.width.StepCount())
  {
    PatternRoundTrip(v, Steps(Bits(v, t), t.width.StepCount()), t);
  }

  /** `DownwardInvolution` is its own inverse. */
  lemma DownwardInvolutionIsInvolution(v: int, t: IntType)
    requires t.Contains(v)
    ensures DownwardInvolutionOf(DownwardInvolutionOf(v, t), t) == v
  {
    var n := t.width.StepCount();
    BitsOfDownwardInvolution(v, t);
    StepsInvolution(Bits(v, t), n);
    PatternRoundTrip(v, Bits(v, t), t);
  }

  /** `a ^ b` on values of type `t`. */
  function IntXor(a: int, b: int, t: IntType): int
    requires t.Contains(a) && t.Contains(b)
  {
    FromBits(Xor(Bits(a, t), Bits(b, t)), t)
  }

  /** The pattern of `a ^ b` is the xor of the patterns. */
  lemma BitsOfIntXor(a: int, b: int, t: IntType)
    requires t.Contains(a) && t.Contains(b)
    ensures Bits(IntXor(a, b, t), t) == Xor(Bits(a, t), Bits(b, t))
  {
    PatternRoundTrip(a, Xor(Bits(a, t), Bits(b, t)), t);
  }

  /** `DownwardInvolution(a ^ b) == DownwardInvolution(a) ^ DownwardInvolution(b)`. */
  lemma DownwardInvolutionDistributesOverXor(a: int, b: int, t: IntType)
    requires t.Contains(a) && t.Contains(b)
    ensures DownwardInvolutionOf(IntXor(a, b, t), t) ==
            IntXor(DownwardInvolutionOf(a, t), DownwardInvolutionOf(b, t), t)
  {
    var n := t.width.StepCount();
    BitsOfIntXor(a, b, t);
    StepsLinear(Bits(a, t), Bits(b, t), n);
    BitsOfDownwardInvolution(a, t);
    BitsOfDownwardInvolution(b, t);
  }

  /** `DownwardInvolution` keeps the highest set bit: for every `j`, bits
      `j` and up of the result are clear exactly when those of `v` are. */
  lemma DownwardInvolutionKeepsHighestBit(v: int, t: IntType)
    ensures t.Contains(v) ==> forall j: nat ::
      ClearFrom(Bits(v, t), j) <==> ClearFrom(Bits(DownwardInvolutionOf(v, t), t), j)
  {
    if t.Contains(v) {
      BitsOfDownwardInvolution(v, t);
      forall j: nat
        ensures ClearFrom(Bits(v, t), j) <==> ClearFrom(Bits(DownwardInvolutionOf(v, t), t), j)
      {
        StepsClearIff(Bits(v, t), t.width.StepCount(), j);
      }
    }
  }

  // ---------------------------------------------------------------------
  // The standard-library wrappers
  // ---------------------------------------------------------------------

  /** The integer logarithm of a positive number. */
  function Log2(x: nat): (r: nat)
    requires x >= 1
    ensures Pow2(r) <= x < Pow2(r + 1)
  {
    if x == 1 then 0 else 1 + Log2(x / 2)
  }

  /** Only one `r` brackets `x` between 2^r and 2^(r+1). */
  lemma Log2Unique(x: nat, r: nat)
    requires Pow2(r) <= x < Pow2(r + 1)
    ensures Log2(x) == r
  {
    var q := Log2(x);
    if q < r {
      Pow2Monotone(q + 1, r);
    } else if r < q {
      Pow2Monotone(r + 1, q);
    }
  }

  /** `floor_log2_*(v)`, that is `v.ilog2() as i32`, which panics unless
      `v` is positive. */
  function FloorLog2(v: int, t: IntType): (r: Result<int>)
    requires t.Contains(v)
    ensures r.Success? <==> v > 0
    ensures r.Success? ==> 0 <= r.value < t.width.Bits() && Pow2(r.value) <= v < Pow2(r.value + 1)
  {
    if v <= 0 then
      Panic("argument of integer logarithm must be positive")
    else
      Pow2Monotone(t.width.Bits() - 1, t.width.Bits());
      Log2Below(v, t.width.Bits());
      Success(Log2(v))
  }

  lemma Log2Below(x: nat, n: nat)
    requires 1 <= x < Pow2(n)
    ensures Log2(x) < n
  {
    if Log2(x) >= n {
      Pow2Monotone(n, Log2(x));
    }
  }

  /** A pattern spells a number below 2^j exactly when bits `j` and up are
      clear. */
  lemma {:induction false} ValueBelow(s: seq<bool>, j: nat)
    requires j <= |s|
    ensures Value(s) < Pow2(j) <==> ClearFrom(s, j)
    decreases |s|
  {
    if s != [] {
      var j' := if j == 0 then 0 else j - 1;
      ValueBelow(s[1..], j');
      assert ClearFrom(s, j) <==> (j == 0 ==> !s[0]) && ClearFrom(s[1..], j');
    }
  }

  /** The sign and the zero test of a value read off its pattern. */
  lemma SignAndZero(s: seq<bool>, t: IntType)
    requires |s| == t.width.Bits()
    ensures FromBits(s, t) < 0 <==> t.signed && !ClearFrom(s, |s| - 1)
    ensures FromBits(s, t) == 0 <==> ClearFrom(s, 0)
    ensures FromBits(s, t) >= 0 ==> FromBits(s, t) == Value(s)
  {
    ValueBelow(s, 0);
    assert ClearFrom(s, |s| - 1) <==> !s[|s| - 1];
  }

  /** Two patterns with the same highest set bit spell values with the same
      `floor_log2` outcome. */
  lemma SameHighestBitSameFloorLog2(s: seq<bool>, s': seq<bool>, t: IntType)
    requires |s| == |s'| == t.width.Bits()
    requires forall j: nat :: ClearFrom(s, j) <==> ClearFrom(s', j)
    ensures FloorLog2(FromBits(s, t), t) == FloorLog2(FromBits(s', t), t)
  {
    SignAndZero(s, t);
    SignAndZero(s', t);
    assert ClearFrom(s, |s| - 1) <==> ClearFrom(s', |s| - 1);
    assert ClearFrom(s, 0) <==> ClearFrom(s', 0);
    var v := FromBits(s, t);
    if v > 0 {
      var r := Log2(v);
      Pow2Monotone(|s| - 1, |s|);
      Log2Below(v, |s|);
      ValueBelow(s, r);
      ValueBelow(s, r + 1);
      ValueBelow(s', r);
      ValueBelow(s', r + 1);
      assert ClearFrom(s, r) <==> ClearFrom(s', r);
      assert ClearFrom(s, r + 1) <==> ClearFrom(s', r + 1);
      Log2Unique(FromBits(s', t), r);
    }
  }

  /** So `floor_log2(DownwardInvolution(v)) == floor_log2(v)`, the panic for
      values that are not positive included. */
  lemma DownwardInvolutionKeepsFloorLog2(v: int, t: IntType)
    requires t.Contains(v)
    ensures FloorLog2(DownwardInvolutionOf(v, t), t) == FloorLog2(v, t)
  {
    DownwardInvolutionKeepsHighestBit(v, t);
    PatternRoundTrip(v, Bits(v, t), t);
    PatternRoundTrip(DownwardInvolutionOf(v, t), Bits(v, t), t);
    SameHighestBitSameFloorLog2(Bits(v, t), Bits(DownwardInvolutionOf(v, t), t), t);
  }

  /** The index of the lowest set bit, or the length when none is. */
  function FirstSet(s: seq<bool>): (r: nat)
    ensures r <= |s|
    ensures forall i | 0 <= i < r :: !s[i]
    ensures r < |s| ==> s[r]
  {
    if s == [] || s[0] then 0 else 1 + FirstSet(s[1..])
  }

  /** `trailing_zeros_*(v)`, that is `v.trailing_zeros() as i32`. */
  function TrailingZeros(v: int, t: IntType): (r: nat)
    requires t.Contains(v)
    ensures r <= t.width.Bits()
    ensures forall i | 0 <= i < r :: !Bits(v, t)[i]
    ensures r < t.width.Bits() ==> Bits(v, t)[r]
  {
    FirstSet(Bits(v, t))
  }

  /** `trailing_zeros` is the width exactly for 0. */
  lemma TrailingZerosOfZero(v: int, t: IntType)
    requires t.Contains(v)
    ensures TrailingZeros(v, t) == t.width.Bits() <==> v == 0
  {
    PatternRoundTrip(v, Bits(v, t), t);
    SignAndZero(Bits(v, t), t);
  }

  /** The number of set bits. */
  function Count(s: seq<bool>): (r: nat)
    ensures r <= |s|
  {
    if s == [] then 0 else (if s[0] then 1 else 0) + Count(s[1..])
  }

  lemma {:induction false} CountAppend(a: seq<bool>, b: seq<bool>)
    ensures Count(a + b) == Count(a) + Count(b)
    decreases |a|
  {
    if a == [] {
      assert a + b == b;
    } else {
      CountAppend(a[1..], b);
      assert (a + b)[1..] == a[1..] + b;
    }
  }

  /** No bit is set exactly when the count is 0. */
  lemma {:induction false} CountZero(s: seq<bool>)
    ensures Count(s) == 0 <==> ClearFrom(s, 0)
    decreases |s|
  {
    if s != [] {
      CountZero(s[1..]);
      assert ClearFrom(s, 0) <==> !s[0] && ClearFrom(s[1..], 0);
    }
  }

  /** Bits set in both are counted twice on the right, not at all on the
      left. */
  lemma {:induction false} CountXor(a: seq<bool>, b: seq<bool>)
    requires |a| == |b|
    ensures Count(Xor(a, b)) + 2 * Count(And(a, b)) == Count(a) + Count(b)
    decreases |a|
  {
    if a != [] {
      CountXor(a[1..], b[1..]);
      assert Xor(a, b)[1..] == Xor(a[1..], b[1..]);
      assert And(a, b)[1..] == And(a[1..], b[1..]);
    }
  }

  /** `count_ones_*(v)`. */
  function CountOnes(v: int, t: IntType): (r: nat)
    requires t.Contains(v)
    ensures r <= t.width.Bits()
    ensures r == 0 <==> v == 0
  {
    PatternRoundTrip(v, Bits(v, t), t);
    SignAndZero(Bits(v, t), t);
    CountZero(Bits(v, t));
    Count(Bits(v, t))
  }

  /** `parity_*(v)`: `count_ones(v) % 2`. */
  function Parity(v: int, t: IntType): (r: nat)
    requires t.Contains(v)
    ensures r == 0 || r == 1
    ensures r == 1 <==> CountOnes(v, t) % 2 == 1
  {
    CountOnes(v, t) % 2
  }

  /** The parity of `a ^ b` is the sum of the parities, mod 2. */
  lemma ParityOfXor(a: int, b: int, t: IntType)
    requires t.Contains(a) && t.Contains(b)
    ensures Parity(IntXor(a, b, t), t) == (Parity(a, t) + Parity(b, t)) % 2
  {
    var sa, sb := Bits(a, t), Bits(b, t);
    var x := Xor(sa, sb);
    BitsOfIntXor(a, b, t);
    ParityOfPattern(IntXor(a, b, t), t);
    ParityOfPattern(a, t);
    ParityOfPattern(b, t);
    CountXor(sa, sb);
    SumParity(Count(x), Count(And(sa, sb)), Count(sa), Count(sb));
  }

  lemma ParityOfPattern(v: int, t: IntType)
    requires t.Contains(v)
    ensures Parity(v, t) == Count(Bits(v, t)) % 2
  {
  }

  lemma SumParity(x: nat, z: nat, p: nat, q: nat)
    requires x + 2 * z == p + q
    ensures x % 2 == (p % 2 + q % 2) % 2
  {
  }

  /** Bit order reversed. */
  function Reverse(s: seq<bool>): (r: seq<bool>)
    ensures |r| == |s|
  {
    seq(|s|, i requires 0 <= i < |s| => s[|s| - 1 - i])
  }

  lemma ReverseInvolution(s: seq<bool>)
    ensures Reverse(Reverse(s)) == s
  {
  }

  lemma {:induction false} CountReverse(s: seq<bool>)
    ensures Count(Reverse(s)) == Count(s)
    decreases |s|
  {
    if s != [] {
      CountReverse(s[1..]);
      assert Reverse(s) == Reverse(s[1..]) + [s[0]];
      CountAppend(Reverse(s[1..]), [s[0]]);
    }
  }

  /** `reverse_bits_*(v)`: bit `i` of the result is bit `w - 1 - i` of `v`. */
  function ReverseBits(v: int, t: IntType): (r: int)
    requires t.Contains(v)
    ensures t.Contains(r)
    ensures forall i | 0 <= i < t.width.Bits() ::
      Bits(r, t)[i] == Bits(v, t)[t.width.Bits() - 1 - i]
  {
    PatternRoundTrip(v, Reverse(Bits(v, t)), t);
    FromBits(Reverse(Bits(v, t)), t)
  }

  /** Reversing the bits twice gives `v` back, and keeps the count of ones. */
  lemma ReverseBitsInvolution(v: int, t: IntType)
    requires t.Contains(v)
    ensures ReverseBits(ReverseBits(v, t), t) == v
    ensures CountOnes(ReverseBits(v, t), t) == CountOnes(v, t)
  {
    var s := Bits(v, t);
    PatternRoundTrip(v, Reverse(s), t);
    PatternRoundTrip(v, Reverse(Reverse(s)), t);
    ReverseInvolution(s);
    CountReverse(s);
  }

  /** Byte order reversed. */
  function ReverseBytes(s: seq<bool>): (r: seq<bool>)
    requires |s| % 8 == 0
    ensures |r| == |s|
  {
    seq(|s|, i requires 0 <= i < |s| => s[|s| - 8 - 8 * (i / 8) + i % 8])
  }

  /** Byte `b` of a pattern. */
  function ByteAt(s: seq<bool>, b: nat): seq<bool>
    requires 8 * b + 8 <= |s|
  {
    s[8 * b..8 * b + 8]
  }

  /** Byte `b` of the reversed pattern is byte `n/8 - 1 - b` of the original. */
  lemma ReverseBytesBytes(s: seq<bool>)
    requires |s| % 8 == 0
    ensures forall b: nat | b < |s| / 8 :: ByteAt(ReverseBytes(s), b) == ByteAt(s, |s| / 8 - 1 - b)
  {
    var n := |s| / 8;
    assert |s| == 8 * n;
    forall b: nat | b < n
      ensures ByteAt(ReverseBytes(s), b) == ByteAt(s, n - 1 - b)
    {
      forall j | 0 <= j < 8
        ensures ByteAt(ReverseBytes(s), b)[j] == ByteAt(s, n - 1 - b)[j]
      {
        var i := 8 * b + j;
        assert i / 8 == b && i % 8 == j;
        assert ReverseBytes(s)[i] == s[8 * (n - 1 - b) + j];
      }
    }
  }

  lemma ReverseBytesInvolution(s: seq<bool>)
    requires |s| % 8 == 0
    ensures ReverseBytes(ReverseBytes(s)) == s
  {
    forall i | 0 <= i < |s|
      ensures ReverseBytes(ReverseBytes(s))[i] == s[i]
    {
      var j := |s| - 8 - 8 * (i / 8) + i % 8;
      assert j / 8 == |s| / 8 - 1 - i / 8 && j % 8 == i % 8;
    }
  }

  /** `swap_bytes_*(v)`: byte `b` of the result is byte `w/8 - 1 - b` of `v`. */
  function SwapBytes(v: int, t: IntType): (r: int)
    requires t.Contains(v)
    ensures t.Contains(r)
    ensures forall b: nat | b < t.width.Bytes() ::
      ByteAt(Bits(r, t), b) == ByteAt(Bits(v, t), t.width.Bytes() - 1 - b)
  {
    var s := Bits(v, t);
    PatternRoundTrip(v, ReverseBytes(s), t);
    ReverseBytesBytes(s);
    FromBits(ReverseBytes(s), t)
  }

  /** Swapping the bytes twice gives `v` back. */
  lemma SwapBytesInvolution(v: int, t: IntType)
    requires t.Contains(v)
    ensures SwapBytes(SwapBytes(v, t), t) == v
  {
    var s := Bits(v, t);
    PatternRoundTrip(v, ReverseBytes(s), t);
    PatternRoundTrip(v, ReverseBytes(ReverseBytes(s)), t);
    ReverseBytesInvolution(s);
  }

  // ---------------------------------------------------------------------
  // Which bits of v the bottom bits of DownwardInvolution(v) pin down
  // ---------------------------------------------------------------------

  /** An index from 2^k to 2^(k+1) - 1 has bit `k` set. */
  lemma HighIndexBit(i: nat, k: nat)
    requires Pow2(k) <= i < Pow2(k + 1)
    ensures BitOf(i, k)
  {
    SmallIndexBit(i - Pow2(k), k);
    AddPow2FlipsBit(i - Pow2(k), k);
  }

  /** On a 2^K-bit pattern the top step xors the high half into the low
      half and keeps the high half. */
  lemma TopStep(d: seq<bool>, k: nat)
    requires k > 0 && |d| == Pow2(k)
    ensures XorShift(d, k - 1) == Xor(d[..Pow2(k - 1)], d[Pow2(k - 1)..]) + d[Pow2(k - 1)..]
  {
    var h := Pow2(k - 1);
    var x := Xor(d[..h], d[h..]) + d[h..];
    forall i | 0 <= i < |d|
      ensures XorShift(d, k - 1)[i] == x[i]
    {
      if i < h {
        SmallIndexBit(i, k - 1);
      } else {
        HighIndexBit(i, k - 1);
      }
    }
  }

  /** Steps under `m` act on the high 2^m bits of a 2^(m+1)-bit pattern as
      on a pattern of their own. */
  lemma XorShiftSuffix(e: seq<bool>, k: nat, m: nat)
    requires k < m && |e| == 2 * Pow2(m)
    ensures XorShift(e, k)[Pow2(m)..] == XorShift(e[Pow2(m)..], k)
  {
    var h := Pow2(m);
    forall i | 0 <= i < h
      ensures XorShift(e, k)[h + i] == XorShift(e[h..], k)[i]
    {
      SmallIndexBit(i, m);
      AddPow2KeepsOtherBits(i, k, m);
    }
  }

  lemma {:induction false} StepsSuffix(e: seq<bool>, n: nat, m: nat)
    requires n <= m && |e| == 2 * Pow2(m)
    ensures Steps(e, n)[Pow2(m)..] == Steps(e[Pow2(m)..], n)
    decreases n
  {
    if n > 0 {
      StepsSuffix(XorShift(e, n - 1), n - 1, m);
      XorShiftSuffix(e, n - 1, m);
    }
  }

  /** The steps of a 2^K-bit pattern, half by half: the low half of the
      result is the lower steps on the xor of the halves, the high half the
      lower steps on the high half. */
  lemma StepsHalves(d: seq<bool>, k: nat)
    requires k > 0 && |d| == Pow2(k)
    ensures Steps(d, k)[..Pow2(k - 1)] == Steps(Xor(d[..Pow2(k - 1)], d[Pow2(k - 1)..]), k - 1)
    ensures Steps(d, k)[Pow2(k - 1)..] == Steps(d[Pow2(k - 1)..], k - 1)
  {
    var h := Pow2(k - 1);
    var e := XorShift(d, k - 1);
    TopStep(d, k);
    StepsPrefix(e, k - 1, k - 1);
    StepsSuffix(e, k - 1, k - 1);
    assert e[..h] == Xor(d[..h], d[h..]);
    assert e[h..] == d[h..];
  }

  /** Bits below `c` are all clear. */
  predicate ClearBelow(s: seq<bool>, c: int) {
    forall i | 0 <= i < c && i < |s| :: !s[i]
  }

  /** Index `i` lies in the cyclic window of `c` indices from `s`, modulo `n`. */
  predicate InWindow(i: int, s: int, c: int, n: int) {
    (s <= i < s + c) || (s <= i + n < s + c)
  }

  /** Every set bit of `d` lies in the cyclic window of `c` bits from `s`. */
  predicate Within(d: seq<bool>, s: int, c: int) {
    forall i | 0 <= i < |d| :: d[i] ==> InWindow(i, s, c, |d|)
  }

  /** A window start folded into the low half. */
  function Fold(s: int, h: int): int {
    if s < h then s else s - h
  }

  lemma WindowProject(j: int, s: int, c: int, h: int)
    requires 0 <= j < h && 0 <= s < 2 * h && 0 <= c <= h
    requires InWindow(j, s, c, 2 * h) || InWindow(j + h, s, c, 2 * h)
    ensures InWindow(j, Fold(s, h), c, h)
  {
  }

  lemma WindowNotBoth(j: int, s: int, c: int, h: int)
    requires 0 <= j < h && 0 <= s < 2 * h && 0 <= c <= h
    ensures !(InWindow(j, s, c, 2 * h) && InWindow(j + h, s, c, 2 * h))
  {
  }

  lemma WindowBoth(j: int, s: int, c: int, h: int)
    requires 0 <= j < h && 0 <= s < 2 * h && h < c <= 2 * h
    requires InWindow(j, s, c, 2 * h) && InWindow(j + h, s, c, 2 * h)
    ensures InWindow(j, Fold(s, h), c - h, h)
  {
  }

  /** The heart of the matter: a 2^K-bit pattern whose set bits lie in a
      cyclic window of `c` bits, and whose image under the steps has its
      bottom `c` bits clear, is all clear. (Every square block of the
      transformation's matrix made of its top rows and a run of columns is
      invertible.) By halves: a window no wider than a half folds onto the
      xor of the halves; a wider one forces the halves equal and leaves a
      window of `c` - 2^(K-1) bits in the high half. */
  lemma {:induction false} WindowDetermined(d: seq<bool>, k: nat, s: int, c: nat)
    requires |d| == Pow2(k) && 0 <= s < |d| && c <= |d|
    requires Within(d, s, c)
    requires ClearBelow(Steps(d, k), c)
    ensures ClearFrom(d, 0)
    decreases k
  {
    if k == 0 {
      if c == 1 {
        assert !Steps(d, 0)[0];
      }
    } else {
      var h := Pow2(k - 1);
      var e := Xor(d[..h], d[h..]);
      StepsHalves(d, k);
      if c <= h {
        NarrowWindowFolds(d, k, s, c);
        WindowDetermined(e, k - 1, Fold(s, h), c);
        NarrowWindowClear(d, k, s, c);
      } else {
        WideWindowHalvesEqual(d, k, s, c);
        WindowDetermined(d[h..], k - 1, Fold(s, h), c - h);
        assert forall j | 0 <= j < |d| :: !d[j] by {
          forall j | 0 <= j < |d|
            ensures !d[j]
          {
            var j' := if j < h then j else j - h;
            assert !e[j'] && !d[h..][j'];
          }
        }
      }
    }
  }

  /** A window of at most half the width: the xor of the halves has its
      set bits in the folded window and its image's bottom `c` bits clear. */
  lemma NarrowWindowFolds(d: seq<bool>, k: nat, s: int, c: nat)
    requires k > 0 && |d| == Pow2(k) && 0 <= s < |d| && c <= Pow2(k - 1)
    requires Within(d, s, c)
    requires ClearBelow(Steps(d, k), c)
    ensures Within(Xor(d[..Pow2(k - 1)], d[Pow2(k - 1)..]), Fold(s, Pow2(k - 1)), c)
    ensures ClearBelow(Steps(Xor(d[..Pow2(k - 1)], d[Pow2(k - 1)..]), k - 1), c)
  {
    var h := Pow2(k - 1);
    var e := Xor(d[..h], d[h..]);
    StepsHalves(d, k);
    forall j | 0 <= j < h && e[j]
      ensures InWindow(j, Fold(s, h), c, h)
    {
      WindowProject(j, s, c, h);
    }
    var se := Steps(e, k - 1);
    forall i | 0 <= i < c
      ensures !se[i]
    {
      assert se[i] == Steps(d, k)[i];
    }
  }

  /** ... and once that xor is clear, so is the pattern: a set bit would
      have its twin in the other half, and a narrow window cannot hold
      both. */
  lemma NarrowWindowClear(d: seq<bool>, k: nat, s: int, c: nat)
    requires k > 0 && |d| == Pow2(k) && 0 <= s < |d| && c <= Pow2(k - 1)
    requires Within(d, s, c)
    requires ClearFrom(Xor(d[..Pow2(k - 1)], d[Pow2(k - 1)..]), 0)
    ensures ClearFrom(d, 0)
  {
    var h := Pow2(k - 1);
    var e := Xor(d[..h], d[h..]);
    forall j | 0 <= j < |d|
      ensures !d[j]
    {
      var j' := if j < h then j else j - h;
      assert !e[j'];
      WindowNotBoth(j', s, c, h);
    }
  }

  /** A window wider than half: the bottom half of the image is all clear,
      so the halves are equal, and the high half has its set bits in a
      window of `c` - 2^(K-1) and its image's bottom bits clear. */
  lemma WideWindowHalvesEqual(d: seq<bool>, k: nat, s: int, c: nat)
    requires k > 0 && |d| == Pow2(k) && 0 <= s < |d| && Pow2(k - 1) < c <= |d|
    requires Within(d, s, c)
    requires ClearBelow(Steps(d, k), c)
    ensures ClearFrom(Xor(d[..Pow2(k - 1)], d[Pow2(k - 1)..]), 0)
    ensures Within(d[Pow2(k - 1)..], Fold(s, Pow2(k - 1)), c - Pow2(k - 1))
    ensures ClearBelow(Steps(d[Pow2(k - 1)..], k - 1), c - Pow2(k - 1))
  {
    var h := Pow2(k - 1);
    var e := Xor(d[..h], d[h..]);
    var hi := d[h..];
    StepsHalves(d, k);
    var se := Steps(e, k - 1);
    forall i | 0 <= i < h
      ensures !se[i]
    {
      assert se[i] == Steps(d, k)[i];
    }
    StepsClearIff(e, k - 1, 0);
    forall j | 0 <= j < h && hi[j]
      ensures InWindow(j, Fold(s, h), c - h, h)
    {
      assert !e[j];
      WindowBoth(j, s, c, h);
    }
    var sh := Steps(hi, k - 1);
    forall i | 0 <= i < c - h
      ensures !sh[i]
    {
      assert sh[i] == Steps(d, k)[h + i];
    }
  }

  /** Two 2^K-bit patterns that agree outside bits `b` .. `b + c - 1` and
      whose images under the steps agree on their bottom `c` bits are
      equal. */
  lemma StepsDetermineWindow(x: seq<bool>, y: seq<bool>, k: nat, b: nat, c: nat)
    requires |x| == |y| == Pow2(k) && b + c <= Pow2(k)
    requires forall i | 0 <= i < |x| && !(b <= i < b + c) :: x[i] == y[i]
    requires Steps(x, k)[..c] == Steps(y, k)[..c]
    ensures x == y
  {
    var d := Xor(x, y);
    StepsLinear(x, y, k);
    var sd := Steps(d, k);
    forall i | 0 <= i < c
      ensures !sd[i]
    {
      assert Steps(x, k)[..c][i] == Steps(y, k)[..c][i];
    }
    var s := if b < |d| then b else 0;
    WindowDetermined(d, k, s, c);
    forall i | 0 <= i < |x|
      ensures x[i] == y[i]
    {
      assert !d[i];
    }
  }

  /** `DownwardInvolution`'s claim made exact: the `b` bottom bits of `v`
      and the `c` bottom bits of `DownwardInvolution(v)` determine the `c`
      bits of `v` above those `b`, the bits above `b + c` being given. For
      `b = 0` this is the bijection between any `c` adjacent input bits and
      the bottom `c` output bits. */
  lemma DownwardInvolutionBottomBits(v: int, v': int, t: IntType, b: nat, c: nat)
    requires t.Contains(v) && t.Contains(v') && b + c <= t.width.Bits()
    requires Bits(v, t)[..b] == Bits(v', t)[..b]
    requires Bits(v, t)[b + c..] == Bits(v', t)[b + c..]
    requires Bits(DownwardInvolutionOf(v, t), t)[..c] == Bits(DownwardInvolutionOf(v', t), t)[..c]
    ensures v == v'
  {
    var x, y := Bits(v, t), Bits(v', t);
    var k := t.width.StepCount();
    BitsIsPow2(t.width);
    BitsOfDownwardInvolution(v, t);
    BitsOfDownwardInvolution(v', t);
    forall i | 0 <= i < |x| && !(b <= i < b + c)
      ensures x[i] == y[i]
    {
      if i < b {
        assert x[..b][i] == y[..b][i];
      } else {
        assert x[b + c..][i - b - c] == y[b + c..][i - b - c];
      }
    }
    StepsDetermineWindow(x, y, k, b, c);
    PatternRoundTrip(v, x, t);
    PatternRoundTrip(v', y, t);
  }

  /** The bottom bit of the steps' image is the parity of the pattern. */
  lemma {:induction false} BottomBitIsParity(s: seq<bool>, k: nat)
    requires |s| == Pow2(k)
    ensures Steps(s, k)[0] == (Count(s) % 2 == 1)
    decreases k
  {
    if k > 0 {
      var h := Pow2(k - 1);
      StepsHalves(s, k);
      BottomBitIsParity(Xor(s[..h], s[h..]), k - 1);
      FoldKeepsParity(s, h);
    }
  }

  /** Xoring the halves of a pattern keeps its parity. */
  lemma FoldKeepsParity(s: seq<bool>, h: nat)
    requires |s| == 2 * h
    ensures Count(Xor(s[..h], s[h..])) % 2 == Count(s) % 2
  {
    var lo, hi := s[..h], s[h..];
    CountXor(lo, hi);
    assert s == lo + hi;
    CountAppend(lo, hi);
    SumParity(Count(Xor(lo, hi)), Count(And(lo, hi)), Count(lo), Count(hi));
  }

  /** So `DownwardInvolution(v)` is odd exactly when `parity(v)` is 1. */
  lemma DownwardInvolutionBottomBit(v: int, t: IntType)
    requires t.Contains(v)
    ensures Bits(DownwardInvolutionOf(v, t), t)[0] <==> Parity(v, t) == 1
  {
    BitsIsPow2(t.width);
    BitsOfDownwardInvolution(v, t);
    BottomBitIsParity(Bits(v, t), t.width.StepCount());
    ParityOfPattern(v, t);
  }

  /** The claim as the source's comment words it, for every pair of values:
      the `b` bottom bits of `v` and the `c` bottom bits of the image fix the
      `b + c` bottom bits of `v`, whatever the bits above. */
  ghost predicate BottomBitsClaimAsWritten(t: IntType, b: nat, c: nat)
    requires b + c <= t.width.Bits()
  {
    forall v, v' | t.Contains(v) && t.Contains(v') ::
      Bits(v, t)[..b] == Bits(v', t)[..b] &&
      Bits(DownwardInvolutionOf(v, t), t)[..c] == Bits(DownwardInvolutionOf(v', t), t)[..c]
      ==> Bits(v, t)[..b + c] == Bits(v', t)[..b + c]
  }

  /** It fails: for u8 with b = 0 and c = 1, 1 and 2 both have odd images
      (1 and 3) but differ in their bottom bit. */
  lemma BottomBitsClaimAsWrittenFails()
    ensures !BottomBitsClaimAsWritten(U8, 0, 1)
  {
    var v, v' := 1, 2;
    var x, y := Bits(v, U8), Bits(v', U8);
    OneAndTwo();
    assert x[0] && !y[0];
    ParityOfPattern(v, U8);
    ParityOfPattern(v', U8);
    DownwardInvolutionBottomBit(v, U8);
    DownwardInvolutionBottomBit(v', U8);
    var dx, dy := Bits(DownwardInvolutionOf(v, U8), U8), Bits(DownwardInvolutionOf(v', U8), U8);
    assert dx[0] && dy[0];
    assert dx[..1] == dy[..1];
    assert x[..1] != y[..1];
  }

  /** 1 and 2 as u8: one bit set each, bit 0 and bit 1. */
  lemma OneAndTwo()
    ensures Bits(1, U8)[0] && Count(Bits(1, U8)) == 1
    ensures !Bits(2, U8)[0] && Count(Bits(2, U8)) == 1
  {
    SmallPowers();
    BitsOfPow2(0, 8);
    BitsOfPow2(1, 8);
  }

  /** 2^j has bit `j` set and no other. */
  lemma {:induction false} BitsOfPow2(j: nat, n: nat)
    requires j < n
    ensures BitsOf(Pow2(j), n)[j] && Count(BitsOf(Pow2(j), n)) == 1
    ensures BitsOf(Pow2(j), n)[0] <==> j == 0
    decreases n
  {
    var s := BitsOf(Pow2(j), n);
    if j == 0 {
      assert Pow2(j) == 1;
      BitsOfZero(n - 1);
      CountZero(BitsOf(0, n - 1));
      assert s[1..] == BitsOf(0, n - 1);
    } else {
      assert Pow2(j) % 2 == 0 && Pow2(j) / 2 == Pow2(j - 1);
      BitsOfPow2(j - 1, n - 1);
      assert s[1..] == BitsOf(Pow2(j - 1), n - 1);
    }
  }

  /** 0 has no bit set. */
  lemma {:induction false} BitsOfZero(n: nat)
    ensures ClearFrom(BitsOf(0, n), 0)
    decreases n
  {
    if n > 0 {
      BitsOfZero(n - 1);
      assert BitsOf(0, n)[1..] == BitsOf(0, n - 1);
    }
  }
}
