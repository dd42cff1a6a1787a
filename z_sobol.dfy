/**
 * The integer core of `ZSobolSampler`: the bit helpers, the base-4 digit
 * permutation of `get_sample_index`, and the sampler's mutable state.
 */
module ZSobol {

  /** A bit position of a 32-bit word. */
  type BitIndex32 = k: nat | k < 32

  /** A `u32` used as a number (counts, sizes, exponents). */
  type U32 = x: nat | x < 0x1_0000_0000

  // ---------------------------------------------------------------------------
  // Bit reversal

  /** `FastOwenScrambler::reverse_bits_32`: swap halves, then bytes, nibbles, pairs and bits. */
  function ReverseBits32(n0: bv32): bv32
  {
    var n1 := n0.RotateRight(16);
    var n2 := ((n1 & 0x00ff00ff) << 8) | ((n1 & 0xff00ff00) >> 8);
    var n3 := ((n2 & 0x0f0f0f0f) << 4) | ((n2 & 0xf0f0f0f0) >> 4);
    var n4 := ((n3 & 0x33333333) << 2) | ((n3 & 0xcccccccc) >> 2);
    ((n4 & 0x55555555) << 1) | ((n4 & 0xaaaaaaaa) >> 1)
  }

  /** Bit k of a 32-bit word. */
  function BitOf(n: bv32, k: bv32): bv32
    requires k < 32
  {
    (n >> k) & 1
  }

  /** Each stage of the reversal exchanges bit k with bit k ^ w, for its width w. */
  lemma SwapHalves(n: bv32, k: bv32)
    requires k < 32
    ensures BitOf(n.RotateRight(16), k) == BitOf(n, k ^ 16)
  {
  }

  lemma SwapBytes(n: bv32, k: bv32)
    requires k < 32
    ensures BitOf(((n & 0x00ff00ff) << 8) | ((n & 0xff00ff00) >> 8), k) == BitOf(n, k ^ 8)
  {
  }

  lemma SwapNibbles(n: bv32, k: bv32)
    requires k < 32
    ensures BitOf(((n & 0x0f0f0f0f) << 4) | ((n & 0xf0f0f0f0) >> 4), k) == BitOf(n, k ^ 4)
  {
  }

  lemma SwapPairs(n: bv32, k: bv32)
    requires k < 32
    ensures BitOf(((n & 0x33333333) << 2) | ((n & 0xcccccccc) >> 2), k) == BitOf(n, k ^ 2)
  {
  }

  lemma SwapBits(n: bv32, k: bv32)
    requires k < 32
    ensures BitOf(((n & 0x55555555) << 1) | ((n & 0xaaaaaaaa) >> 1), k) == BitOf(n, k ^ 1)
  {
  }

  /** Bit k of the reversal is bit 31 - k of the input: the five stages together exchange k with k ^ 31. */
  lemma ReverseBitsMirrors(n: bv32, k: bv32)
    requires k < 32
    ensures (ReverseBits32(n) >> k) & 1 == (n >> (31 - k)) & 1
  {
    var n1 := n.RotateRight(16);
    var n2 := ((n1 & 0x00ff00ff) << 8) | ((n1 & 0xff00ff00) >> 8);
    var n3 := ((n2 & 0x0f0f0f0f) << 4) | ((n2 & 0xf0f0f0f0) >> 4);
    var n4 := ((n3 & 0x33333333) << 2) | ((n3 & 0xcccccccc) >> 2);
    SwapBits(n4, k);
    SwapPairs(n3, k ^ 1);
    SwapNibbles(n2, k ^ 1 ^ 2);
    SwapBytes(n1, k ^ 1 ^ 2 ^ 4);
    SwapHalves(n, k ^ 1 ^ 2 ^ 4 ^ 8);
    assert k ^ 1 ^ 2 ^ 4 ^ 8 ^ 16 == 31 - k;
  }

  /** Reversing twice gives the input back. */
  lemma ReverseBitsInvolution(n: bv32)
    ensures ReverseBits32(ReverseBits32(n)) == n
  {
  }

  // ---------------------------------------------------------------------------
  // log2_int and round_up_pow2

  function Pow2(k: nat): (r: nat)
    ensures r >= 1
  {
    if k == 0 then 1 else 2 * Pow2(k - 1)
  }

  lemma {:induction false} Pow2Monotone(j: nat, k: nat)
    requires j <= k
    ensures Pow2(j) <= Pow2(k)
  {
    if j < k {
      Pow2Monotone(j, k - 1);
    }
  }

  lemma {:induction false} Pow2Add(a: nat, b: nat)
    ensures Pow2(a + b) == Pow2(a) * Pow2(b)
  {
    if b > 0 {
      Pow2Add(a, b - 1);
      assert Pow2(a + b) == 2 * Pow2(a + b - 1);
    }
  }

  lemma Pow2Values()
    ensures Pow2(16) == 0x1_0000 && Pow2(31) == 0x8000_0000 && Pow2(32) == 0x1_0000_0000
  {
    assert Pow2(2) == 4;
    Pow2Add(2, 2);
    Pow2Add(4, 4);
    Pow2Add(8, 8);
    Pow2Add(16, 16);
    assert Pow2(32) == 2 * Pow2(31);
  }

  /** The number of significant bits of v; `leading_zeros` of a `u32` is 32 minus it. */
  function BitLength(v: nat): nat
  {
    if v == 0 then 0 else 1 + BitLength(v / 2)
  }

  /** A positive v has its highest set bit at BitLength(v) - 1. */
  lemma {:induction false} BitLengthBounds(v: nat)
    requires v > 0
    ensures BitLength(v) >= 1 && Pow2(BitLength(v) - 1) <= v < Pow2(BitLength(v))
  {
    if v > 1 {
      BitLengthBounds(v / 2);
    }
  }

  /** A value below 2^k has at most k significant bits. */
  lemma {:induction false} BitLengthBelow(v: nat, k: nat)
    requires v < Pow2(k)
    ensures BitLength(v) <= k
  {
    if v > 0 {
      BitLengthBelow(v / 2, k - 1);
    }
  }

  /** `u32::leading_zeros`. */
  function LeadingZeros(v: U32): (r: nat)
    ensures r <= 32 && (r == 32 <==> v == 0)
  {
    U32BitLength(v);
    32 - BitLength(v)
  }

  /** A `u32` has at most 32 significant bits. */
  lemma U32BitLength(v: nat)
    requires v < 0x1_0000_0000
    ensures BitLength(v) <= 32
  {
    Pow2Values();
    BitLengthBelow(v, 32);
  }

  /** A shift below 32 gives a power of two that fits a `u32`. */
  lemma Pow2FitsU32(k: nat)
    requires k < 32
    ensures Pow2(k) < 0x1_0000_0000
  {
    Pow2Values();
    Pow2Monotone(k, 31);
  }

  /** `log2_int`: 0 for 0, else 31 minus the leading zeros. */
  function Log2Int(v: U32): (r: nat)
    ensures r < 32
  {
    if v == 0 then 0 else 31 - LeadingZeros(v)
  }

  /** For positive v, 2^r <= v < 2^(r + 1) where r = log2_int(v). */
  lemma Log2IntBounds(v: U32)
    requires v > 0
    ensures Pow2(Log2Int(v)) <= v < Pow2(Log2Int(v) + 1)
  {
    assert Log2Int(v) + 1 == BitLength(v);
    BitLengthBetween(v, Log2Int(v));
  }

  /** A positive value with r + 1 significant bits lies in [2^r, 2^(r + 1)). */
  lemma BitLengthBetween(u: nat, r: nat)
    requires u > 0 && r + 1 == BitLength(u)
    ensures Pow2(r) <= u < Pow2(r + 1)
  {
    BitLengthBounds(u);
  }

  /** The outcome of a shift: its value, or the debug-build panic for a shift by 32 or more. */
  datatype Shifted = Value(value: U32) | ShiftOverflow

  /** `round_up_pow2`: 1 for v <= 1, else `1 << (32 - (v - 1).leading_zeros())`. */
  function RoundUpPow2(v: U32): Shifted
  {
    if v <= 1 then Value(1)
    else
      var shift := 32 - LeadingZeros(v - 1);
      if shift >= 32 then ShiftOverflow
      else
        Pow2FitsU32(shift);
        Value(Pow2(shift))
  }

  /**
   * `round_up_pow2` returns the least power of two that is at least v (1 for v <= 1),
   * and shifts out of range exactly when v exceeds 2^31.
   */
  lemma RoundUpPow2Least(v: U32)
    ensures RoundUpPow2(v).Value? <==> v <= Pow2(31)
    ensures RoundUpPow2(v).Value? ==>
      var p := RoundUpPow2(v).value;
      (exists k :: 0 <= k < 32 && p == Pow2(k)) && v <= p && (p == 1 || p / 2 < v)
  {
    if v <= 1 {
      assert RoundUpPow2(v).value == Pow2(0);
    } else if BitLength(v - 1) < 32 {
      var b := BitLength(v - 1);
      RoundUpInRange(v);
      assert 0 <= b < 32 && RoundUpPow2(v).value == Pow2(b);
    } else {
      RoundUpOverflow(v);
    }
  }

  /** With v - 1 below 2^31, the result is the power of two just above v - 1. */
  lemma RoundUpInRange(v: U32)
    requires v > 1 && BitLength(v - 1) < 32
    ensures RoundUpPow2(v).Value? && v <= Pow2(31)
    ensures var p, b := RoundUpPow2(v).value, BitLength(v - 1);
      p == Pow2(b) && v <= p && (p == 1 || p / 2 < v)
  {
    RoundUpToBitLength(v);
    NextPow2(v - 1);
    BelowPow2(v - 1, 31);
  }

  /** The power of two with as many bits as u is above u, and half of it is not. */
  lemma NextPow2(u: nat)
    requires u > 0
    ensures u < Pow2(BitLength(u)) && Pow2(BitLength(u)) / 2 <= u
  {
    BitLengthBounds(u);
    assert Pow2(BitLength(u)) == 2 * Pow2(BitLength(u) - 1);
  }

  /** A value with at most k significant bits is below 2^k. */
  lemma BelowPow2(u: nat, k: nat)
    requires BitLength(u) <= k
    ensures u < Pow2(k)
  {
    if u > 0 {
      BitLengthBounds(u);
      Pow2Monotone(BitLength(u), k);
    }
  }

  /** With v - 1 at or above 2^31, the shift is by 32 and overflows. */
  lemma RoundUpOverflow(v: U32)
    requires v > 1 && BitLength(v - 1) >= 32
    ensures RoundUpPow2(v).ShiftOverflow? && v > Pow2(31)
  {
    AtLeastPow2(v - 1, 31);
    assert 32 - LeadingZeros(v - 1) == BitLength(v - 1);
  }

  /** A value with more than k significant bits is at least 2^k. */
  lemma AtLeastPow2(u: nat, k: nat)
    requires BitLength(u) > k
    ensures u >= Pow2(k)
  {
    BitLengthBounds(u);
    Pow2Monotone(k, BitLength(u) - 1);
  }

  /** Below the overflow, `round_up_pow2(v)` is 2 to the number of significant bits of v - 1. */
  lemma RoundUpToBitLength(v: U32)
    requires v > 1 && BitLength(v - 1) < 32
    ensures RoundUpPow2(v).Value? && RoundUpPow2(v).value == Pow2(BitLength(v - 1))
  {
    assert 32 - LeadingZeros(v - 1) == BitLength(v - 1);
  }

  // ---------------------------------------------------------------------------
  // Morton encoding

  /** `left_shift2`: spread the low 32 bits of x to the even bit positions. */
  function LeftShift2(x0: bv64): bv64
  {
    var x1 := x0 & 0xffffffff;
    var x2 := (x1 ^ (x1 << 16)) & 0x0000ffff0000ffff;
    var x3 := (x2 ^ (x2 << 8)) & 0x00ff00ff00ff00ff;
    var x4 := (x3 ^ (x3 << 4)) & 0x0f0f0f0f0f0f0f0f;
    var x5 := (x4 ^ (x4 << 2)) & 0x3333333333333333;
    (x5 ^ (x5 << 1)) & 0x5555555555555555
  }

  /** Bit k of x goes to bit 2k, and the odd bits stay clear. */
  lemma LeftShift2Spreads(x: bv64, k: bv64)
    requires k < 32
    ensures (LeftShift2(x) >> (2 * k)) & 1 == (x >> k) & 1
    ensures (LeftShift2(x) >> (2 * k + 1)) & 1 == 0
  {
  }

  /** `encode_morton2`: the `as u32` casts keep the low 32 bits of each spread word. */
  function EncodeMorton2(x: bv32, y: bv32): bv32
  {
    (((LeftShift2(y as bv64) & 0xffffffff) as bv32) << 1) | ((LeftShift2(x as bv64) & 0xffffffff) as bv32)
  }

  /** For k < 16, bit k of x lands at bit 2k and bit k of y at bit 2k + 1. */
  lemma MortonBits(x: bv32, y: bv32, k: bv32)
    requires k < 16
    ensures (EncodeMorton2(x, y) >> (2 * k)) & 1 == (x >> k) & 1
    ensures (EncodeMorton2(x, y) >> (2 * k + 1)) & 1 == (y >> k) & 1
  {
  }

  /** Only the low 16 bits of each coordinate take part: the casts drop the rest. */
  lemma MortonIgnoresHighBits(x: bv32, y: bv32)
    ensures EncodeMorton2(x, y) == EncodeMorton2(x & 0xffff, y & 0xffff)
  {
  }

  // ---------------------------------------------------------------------------
  // get_sample_index

  /** `PERMUTATIONS`: the 24 orderings of the base-4 digits. */
  const Permutations: seq<seq<bv8>> := [
    [0, 1, 2, 3], [0, 1, 3, 2], [0, 2, 1, 3], [0, 2, 3, 1], [0, 3, 2, 1], [0, 3, 1, 2],
    [1, 0, 2, 3], [1, 0, 3, 2], [1, 2, 0, 3], [1, 2, 3, 0], [1, 3, 2, 0], [1, 3, 0, 2],
    [2, 1, 0, 3], [2, 1, 3, 0], [2, 0, 1, 3], [2, 0, 3, 1], [2, 3, 0, 1], [2, 3, 1, 0],
    [3, 1, 2, 0], [3, 1, 0, 2], [3, 2, 1, 0], [3, 2, 0, 1], [3, 0, 2, 1], [3, 0, 1, 2]
  ]

  /** A row of four distinct digits, each below 4: a permutation of {0, 1, 2, 3}. */
  predicate IsDigitPermutation(row: seq<bv8>)
  {
    |row| == 4 && (forall i :: 0 <= i < 4 ==> row[i] < 4) &&
    (forall i, j :: 0 <= i < j < 4 ==> row[i] != row[j])
  }

  /** Every row of the table is a permutation of the four digits. */
  lemma PermutationRows()
    ensures |Permutations| == 24
    ensures forall p :: 0 <= p < 24 ==> IsDigitPermutation(Permutations[p])
  {
  }

  /** `row[digit] as u64`, for a row of the table. */
  function Permuted(row: seq<bv8>, digit: bv64): bv64
    requires |row| == 4
  {
    var d := if digit == 0 then row[0] else if digit == 1 then row[1] else if digit == 2 then row[2] else row[3];
    d as bv64
  }

  /** Through a permutation row, a digit stays a digit and distinct digits stay distinct. */
  lemma PermutedIsBijective(row: seq<bv8>, a: bv64, b: bv64)
    requires IsDigitPermutation(row) && a < 4 && b < 4
    ensures Permuted(row, a) < 4
    ensures Permuted(row, a) == Permuted(row, b) <==> a == b
  {
  }

  /** `mix_bits`, with the `wrapping_mul`s as 64-bit multiplication. */
  function MixBits(v0: bv64): bv64
  {
    var v1 := v0 ^ (v0 >> 31);
    var v2 := v1 * 0x7fb5d329728ea185;
    var v3 := v2 ^ (v2 >> 27);
    var v4 := v3 * 0x81dadef4bc2dd44d;
    v4 ^ (v4 >> 33)
  }

  /** The permutation chosen for a digit from the digits above it and the dimension. */
  function PermutationIndex(higherDigits: bv64, dimension: bv32): (p: nat)
    ensures p < 24
  {
    ((MixBits(higherDigits ^ (0x55555555 * (dimension as bv64))) >> 24) as nat) % 24
  }

  /** A rule that picks a permutation row from the digits above the current one. */
  type Chooser = bv64 -> seq<bv8>

  /** Every row the chooser picks has four entries, so any digit can be looked up in it. */
  ghost predicate ValidChooser(choose: Chooser)
  {
    forall h :: |choose(h)| == 4
  }

  /** Every row the chooser picks is a permutation of the four digits. */
  ghost predicate PermutingChooser(choose: Chooser)
  {
    forall h :: IsDigitPermutation(choose(h))
  }

  /** The chooser `get_sample_index` uses for a dimension: the row `PermutationIndex` hashes to. */
  function HashChooser(dimension: bv32): (choose: Chooser)
    ensures ValidChooser(choose)
  {
    PermutationRows();
    h => Permutations[PermutationIndex(h, dimension)]
  }

  /** Whatever the dimension, the hash always picks a row that permutes the digits. */
  lemma HashChooserPermutes(dimension: bv32)
    ensures PermutingChooser(HashChooser(dimension))
  {
    PermutationRows();
  }

  /** 1 when the sample count is an odd power of two, the case with a base-2 lowest digit. */
  function LastDigit(log2Spp: nat): (c: nat)
    ensures c <= 1 && (c == 1 <==> log2Spp % 2 == 1)
  {
    if log2Spp % 2 == 1 then 1 else 0
  }

  /** `2 * i - c`: where digit i sits in the Morton index when the last digit is c. */
  function DigitShift(c: nat, i: nat): nat
    requires c <= i
  {
    2 * i - c
  }

  /**
   * The digit at `shift`, permuted and put back in place: one step of the loop of
   * `get_sample_index`. Shift amounts below 64 are carried as `bv7`.
   */
  function DigitAt(morton: bv32, choose: Chooser, shift: nat): bv64
    requires ValidChooser(choose) && shift + 2 < 64
  {
    var s := shift as bv7;
    var digit := ((morton as bv64) >> s) & 3;
    var higherDigits := (morton as bv64) >> (s + 2);
    Permuted(choose(higherDigits), digit) << s
  }

  /** The digits lo .. hi - 1 ORed together. */
  function Digits(morton: bv32, choose: Chooser, c: nat, lo: nat, hi: nat): bv64
    requires ValidChooser(choose)
    requires c <= lo && (lo < hi ==> DigitShift(c, hi - 1) + 2 < 64)
    decreases hi - lo
  {
    if lo >= hi then 0
    else Digits(morton, choose, c, lo + 1, hi) | DigitAt(morton, choose, DigitShift(c, lo))
  }

  /** Digits lo .. hi - 1 are digit lo ORed onto the digits above it. */
  lemma {:induction false} DigitsStep(morton: bv32, choose: Chooser, c: nat, lo: nat, hi: nat)
    requires ValidChooser(choose)
    requires c <= lo < hi && DigitShift(c, hi - 1) + 2 < 64
    ensures DigitShift(c, lo) + 2 < 64
    ensures Digits(morton, choose, c, lo + 1, hi) == if lo + 1 < hi then Digits(morton, choose, c, lo + 1, hi) else 0
    ensures Digits(morton, choose, c, lo, hi) == Digits(morton, choose, c, lo + 1, hi) | DigitAt(morton, choose, DigitShift(c, lo))
  {
  }

  /** `get_sample_index`'s result, or the panic of a shift by 64 or more. */
  datatype SampleIndex = Index(value: bv64) | IndexShiftOverflow

  /**
   * The loop runs i from n - 1 down to the last digit; its first, highest digit
   * decides whether `digit_shift + 2` reaches 64.
   */
  function SampleIndexOf(nBase4Digits: nat, log2Spp: nat, morton: bv32, choose: Chooser): SampleIndex
    requires ValidChooser(choose)
  {
    var c := LastDigit(log2Spp);
    if nBase4Digits <= c then Index(0)
    else if DigitShift(c, nBase4Digits - 1) + 2 >= 64 then IndexShiftOverflow
    else Index(Digits(morton, choose, c, c, nBase4Digits))
  }

  /** A digit placed at a shift of at least 1 leaves bit 0 clear. */
  lemma DigitAtClearsBit0(morton: bv32, choose: Chooser, shift: nat)
    requires ValidChooser(choose) && 1 <= shift && shift + 2 < 64
    ensures DigitAt(morton, choose, shift) & 1 == 0
  {
  }

  lemma OrClearsBit0(a: bv64, b: bv64)
    requires a & 1 == 0 && b & 1 == 0
    ensures (a | b) & 1 == 0
  {
  }

  /** With last digit 1, every digit placed from digit 1 upwards leaves bit 0 clear. */
  lemma {:induction false} DigitsClearBit0(morton: bv32, choose: Chooser, lo: nat, hi: nat)
    requires ValidChooser(choose)
    requires lo >= 1 && (lo < hi ==> DigitShift(1, hi - 1) + 2 < 64)
    ensures Digits(morton, choose, 1, lo, hi) & 1 == 0
    decreases hi - lo
  {
    if lo < hi {
      DigitsClearBit0(morton, choose, lo + 1, hi);
      DigitAtClearsBit0(morton, choose, DigitShift(1, lo));
      OrClearsBit0(Digits(morton, choose, 1, lo + 1, hi), DigitAt(morton, choose, DigitShift(1, lo)));
    }
  }

  /**
   * With an odd `log2_spp` the loop stops at i = 1, so bit 0 of the sample index is
   * never set: the lowest base-2 digit is left to the Sobol sequence.
   */
  lemma SampleIndexBit0(nBase4Digits: nat, log2Spp: nat, morton: bv32, choose: Chooser)
    requires ValidChooser(choose) && log2Spp % 2 == 1
    ensures var r := SampleIndexOf(nBase4Digits, log2Spp, morton, choose); r.Index? ==> r.value & 1 == 0
  {
    if nBase4Digits > 1 && DigitShift(1, nBase4Digits - 1) + 2 < 64 {
      DigitsClearBit0(morton, choose, 1, nBase4Digits);
    }
  }

  /** The body of `get_sample_index`'s loop: OR digit i, permuted, onto the digits above it. */
  method AddDigit(sampleIndex: bv64, morton: bv32, choose: Chooser, c: nat, i: nat, n: nat) returns (r: bv64)
    requires ValidChooser(choose) && c <= i < n && DigitShift(c, n - 1) + 2 < 64
    requires sampleIndex == if i + 1 < n then Digits(morton, choose, c, i + 1, n) else 0
    ensures r == Digits(morton, choose, c, i, n)
  {
    DigitsStep(morton, choose, c, i, n);
    r := sampleIndex | DigitAt(morton, choose, 2 * i - c);
  }

  /**
   * `get_sample_index`'s loop: i counts down from n - 1 while i >= last_digit, and
   * each step ORs in the permuted digit that `DigitAt` computes. The sampler passes
   * `HashChooser(dimension)`, the source's `mix_bits` choice of permutation.
   */
  method GetSampleIndex(nBase4Digits: nat, log2Spp: nat, morton: bv32, choose: Chooser) returns (r: SampleIndex)
    requires ValidChooser(choose)
    ensures r == SampleIndexOf(nBase4Digits, log2Spp, morton, choose)
  {
    var sampleIndex: bv64 := 0;
    var lastDigit := LastDigit(log2Spp);
    var i: int := nBase4Digits - 1;
    while i >= lastDigit
      invariant -1 <= i <= nBase4Digits - 1
      invariant i < nBase4Digits - 1 ==> lastDigit - 1 <= i && DigitShift(lastDigit, nBase4Digits - 1) + 2 < 64
      invariant sampleIndex == if i < nBase4Digits - 1 then Digits(morton, choose, lastDigit, i + 1, nBase4Digits) else 0
      decreases i
    {
      var digitShift := 2 * i - lastDigit;
      if digitShift + 2 >= 64 {
        return IndexShiftOverflow;
      }
      assert digitShift == DigitShift(lastDigit, i);
      sampleIndex := AddDigit(sampleIndex, morton, choose, lastDigit, i, nBase4Digits);
      i := i - 1;
    }
    return Index(sampleIndex);
  }

  // ---------------------------------------------------------------------------
  // The sampler

  /** `log2_spp.div_ceil(2)`: the number of base-4 digits the samples of a pixel need. */
  function Log4Spp(log2Spp: nat): (r: nat)
    ensures 2 * r >= log2Spp && 2 * r <= log2Spp + 1
  {
    (log2Spp + 1) / 2
  }

  /** A power of two has itself as its `log2_int`. */
  lemma {:induction false} Log2IntOfPow2(k: nat)
    requires k < 32
    ensures Pow2(k) < 0x1_0000_0000 && Log2Int(Pow2(k)) == k
  {
    Pow2FitsU32(k);
    BitLengthOfPow2(k);
  }

  lemma {:induction false} BitLengthOfPow2(k: nat)
    ensures BitLength(Pow2(k)) == k + 1
  {
    if k > 0 {
      BitLengthOfPow2(k - 1);
      assert Pow2(k) / 2 == Pow2(k - 1);
    }
  }

  /** `morton << log2_spp | sample_index`, for a `log2_spp` below 32. */
  function MortonIndexOf(morton: bv32, shift: bv32, sampleIndex: bv32): bv32
    requires shift < 32
  {
    (morton << shift) | sampleIndex
  }

  /**
   * A sample index that fits in `log2_spp` bits does not overlap the shifted Morton
   * code: the OR is a sum, so the sample index is kept whole in the low bits.
   */
  lemma MortonIndexAdds(morton: bv32, shift: bv32, sampleIndex: bv32)
    requires shift < 32 && sampleIndex < (1 as bv32) << shift
    ensures MortonIndexOf(morton, shift, sampleIndex) == (morton << shift) + sampleIndex
  {
  }

  /** Above the sample bits, the Morton index holds the pixel's Morton code (what of it fits). */
  lemma MortonIndexHighBits(morton: bv32, shift: bv32, sampleIndex: bv32)
    requires shift < 32 && sampleIndex < (1 as bv32) << shift
    ensures MortonIndexOf(morton, shift, sampleIndex) >> shift == (morton << shift) >> shift
  {
  }

  /** `ZSobolSampler`: the per-pixel state that `get_1d` and `get_2d` advance. */
  class ZSobolSampler {
    var dimension: U32
    var seed: bv32
    var log2Spp: U32
    var nBase4Digits: U32
    var mortonIndex: bv32

    /** `log2_spp` comes from `log2_int`, so a shift by it stays inside a `u32`. */
    ghost predicate Valid()
      reads this
    {
      log2Spp < 32
    }

    /**
     * `new`: `log2_spp` is `log2_int(spp)`, the resolution is rounded up to a
     * power of two and `n_base4_digits` is its `log2_int` plus `ceil(log2_spp / 2)`.
     * `round_up_pow2` panics on a shift by 32, so the larger side must be at most 2^31.
     */
    constructor (spp: U32, resolutionX: U32, resolutionY: U32, seed: bv32)
      requires RoundUpPow2(if resolutionX >= resolutionY then resolutionX else resolutionY).Value?
      ensures Valid()
      ensures dimension == 0 && this.seed == seed && mortonIndex == 0
      ensures log2Spp == Log2Int(spp)
      ensures var res := RoundUpPow2(if resolutionX >= resolutionY then resolutionX else resolutionY).value;
        nBase4Digits == Log2Int(res) + Log4Spp(Log2Int(spp))
    {
      var res := RoundUpPow2(if resolutionX >= resolutionY then resolutionX else resolutionY).value;
      dimension := 0;
      this.seed := seed;
      log2Spp := Log2Int(spp);
      nBase4Digits := Log2Int(res) + Log4Spp(Log2Int(spp));
      mortonIndex := 0;
    }

    /** `start_pixel_sample`: restart the dimensions and place the pixel's Morton code above the sample index. */
    method StartPixelSample(px: bv32, py: bv32, sampleIndex: bv32)
      requires Valid()
      modifies this
      ensures Valid()
      ensures dimension == 0 && mortonIndex == MortonIndexOf(EncodeMorton2(px, py), log2Spp as bv32, sampleIndex)
      ensures seed == old(seed) && log2Spp == old(log2Spp) && nBase4Digits == old(nBase4Digits)
    {
      dimension := 0;
      mortonIndex := MortonIndexOf(EncodeMorton2(px, py), log2Spp as bv32, sampleIndex);
    }

    /**
     * `get_1d`: the sample index for the current dimension, then one dimension on.
     * The `+= 1` on a `u32` panics on overflow in a debug build.
     */
    method Get1D() returns (r: SampleIndex)
      requires Valid() && dimension + 1 < 0x1_0000_0000
      modifies this
      ensures Valid()
      ensures r == SampleIndexOf(nBase4Digits, log2Spp, mortonIndex, HashChooser(old(dimension) as bv32))
      ensures dimension == old(dimension) + 1
      ensures seed == old(seed) && log2Spp == old(log2Spp) && nBase4Digits == old(nBase4Digits)
      ensures mortonIndex == old(mortonIndex)
    {
      r := GetSampleIndex(nBase4Digits, log2Spp, mortonIndex, HashChooser(dimension as bv32));
      dimension := dimension + 1;
    }

    /** `get_2d`: the sample index for the current dimension, then two dimensions on. */
    method Get2D() returns (r: SampleIndex)
      requires Valid() && dimension + 2 < 0x1_0000_0000
      modifies this
      ensures Valid()
      ensures r == SampleIndexOf(nBase4Digits, log2Spp, mortonIndex, HashChooser(old(dimension) as bv32))
      ensures dimension == old(dimension) + 2
      ensures seed == old(seed) && log2Spp == old(log2Spp) && nBase4Digits == old(nBase4Digits)
      ensures mortonIndex == old(mortonIndex)
    {
      r := GetSampleIndex(nBase4Digits, log2Spp, mortonIndex, HashChooser(dimension as bv32));
      dimension := dimension + 2;
    }
  }

  /**
   * With a power-of-two sample count, the `n_base4_digits` the constructor computes
   * give room for every sample of every pixel of the rounded-up square:
   * 4^n >= res * res * spp.
   */
  lemma {:induction false} DigitsCoverPixelsAndSamples(m: nat, k: nat)
    requires m < 32 && k < 32
    ensures Pow2(m) < 0x1_0000_0000 && Pow2(k) < 0x1_0000_0000 &&
      var n := Log2Int(Pow2(m)) + Log4Spp(Log2Int(Pow2(k)));
      Pow2(2 * n) >= Pow2(m) * Pow2(m) * Pow2(k)
  {
    Log2IntOfPow2(m);
    Log2IntOfPow2(k);
    var n := m + Log4Spp(k);
    Pow2Add(m, m);
    Pow2Add(m + m, k);
    Pow2Monotone(m + m + k, 2 * n);
  }
}
