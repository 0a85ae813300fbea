/**
 * The float-tolerant positional file diff of fpdiff.py: files are compared
 * line by line, lines token by token, and tokens first as 32-bit floats, then
 * as 64-bit floats, then as plain strings.
 *
 * Floating-point arithmetic is not modelled: Python's float(), the ctypes
 * narrowing, struct packing and the absolute/relative error tests are the
 * oracles bundled in `Numerics`. Everything else (the control flow, the
 * IEEE-754 masks built with Python's unbounded-integer bit operations, the
 * NaN test on raw bits, the ULP distance) is modelled exactly.
 */
module FpDiff {
  import opened Wrappers
  import opened Strings
  import opened PyInts

  /** Tolerances of fpdiff.py: 1e-13, 4 and 1e-10. */
  const MAX_ABS_DIFF: real := 0.0000000000001
  const MAX_ULPS_DIFF: int := 4
  const MAX_RELATIVE_ERROR: real := 0.0000000001

  /** The two struct formats: "f" (raw bits "i") and "d" (raw bits "q"). */
  datatype Width = F32 | F64

  function WidthBits(w: Width): nat
  {
    if w == F32 then 32 else 64
  }

  /** The floating-point operations fpdiff.py delegates to Python and C. */
  datatype Numerics<!V> = Numerics(
    parseFloat: string -> Option<V>,          // float(s); None where it raises ValueError
    narrow: (Width, V) -> V,                  // ctypes.c_float(v).value / c_double(v).value
    isNaN: V -> bool,                         // math.isnan
    equal: (V, V) -> bool,                    // Python == on floats
    pack: (Width, V) -> int,                  // the big-endian bytes of struct.pack, read as unsigned
    absDiffAtMost: (V, V, real) -> bool,      // abs(a - b) <= t
    isZero: V -> bool,                        // v == 0
    relErrorBelow: (V, V, real) -> bool,      // abs(a - b) / b < t
    absDiffBelow: (V, V, real) -> bool,       // abs(a - b) < t
    isNegative: V -> bool,                    // v < 0
    isFinite: V -> bool,                      // math.isfinite
    negate: V -> V)                           // -v

  /**
   * What IEEE-754 arithmetic guarantees about the sign oracles: a negative
   * value is not zero and its negation is neither negative nor zero; and
   * abs(a - b) / b, for a non-NaN a and a finite negative b, is a quotient of
   * a non-negative (possibly infinite) dividend by a negative divisor: at most
   * -0.0, so below every positive tolerance.
   */
  ghost predicate SignLaws<V(!new)>(n: Numerics<V>)
  {
    (forall v :: n.isNegative(v) ==> !n.isZero(v) && !n.isNegative(n.negate(v)) && !n.isZero(n.negate(v))) &&
    (forall a, b, t :: t > 0.0 && !n.isNaN(a) && n.isFinite(b) && n.isNegative(b) ==> n.relErrorBelow(a, b, t))
  }

  /**
   * FloatingPoint._parse_as_type: parse, narrow to the width, and reject
   * (ValueError, here None) a non-NaN value that the narrowing changed.
   */
  function ParseAsType<V>(n: Numerics<V>, token: string, w: Width): (r: Option<V>)
    ensures r.Some? <==>
      n.parseFloat(token).Some? &&
      (n.isNaN(n.parseFloat(token).value) ||
       n.equal(n.narrow(w, n.parseFloat(token).value), n.parseFloat(token).value))
    ensures r.Some? ==> r.value == n.narrow(w, n.parseFloat(token).value)
  {
    match n.parseFloat(token)
    case None => None
    case Some(p) =>
      var c := n.narrow(w, p);
      if !n.isNaN(p) && !n.equal(c, p) then None else Some(c)
  }

  /** Reading an unsigned bit pattern of `width` bits as a signed two's-complement integer. */
  function ToSigned(u: int, width: nat): (r: int)
    requires width >= 1
    ensures -Pow2(width - 1) <= r < Pow2(width - 1)
  {
    var half := Pow2(width - 1);
    var m := u % (2 * half);
    if m >= half then m - 2 * half else m
  }

  /** FloatingPoint._get_raw_bits: struct.unpack(">i"/">q", struct.pack(">f"/">d", v)). */
  function RawBits<V>(n: Numerics<V>, v: V, w: Width): int
  {
    ToSigned(n.pack(w, v), WidthBits(w))
  }

  /** The attributes a FloatingPoint object holds after __init__. */
  datatype FloatingPoint<V> = FloatingPoint(
    signBitcount: nat,
    exponentBitcount: nat,
    fractionBitcount: nat,
    signBitmask: int,
    exponentBitmask: int,
    fractionBitmask: int,
    value: V,
    bits: int)

  /** (~0) << (e + f) */
  function SignMask(e: nat, f: nat): int
  {
    ShiftLeft(Not(0), e + f)
  }

  /** ((~0) << f) & ~sign_bitmask */
  function ExponentMask(e: nat, f: nat): int
  {
    And(ShiftLeft(Not(0), f), Not(SignMask(e, f)))
  }

  /** ~(sign_bitmask | exponent_bitmask) */
  function FractionMask(e: nat, f: nat): int
  {
    Not(Or(SignMask(e, f), ExponentMask(e, f)))
  }

  /** FloatingPoint.__init__; None where _parse_as_type raises ValueError. */
  function NewFloatingPoint<V>(n: Numerics<V>, token: string, w: Width, s: nat, e: nat, f: nat): Option<FloatingPoint<V>>
  {
    match ParseAsType(n, token, w)
    case None => None
    case Some(v) =>
      Some(FloatingPoint(s, e, f, SignMask(e, f), ExponentMask(e, f), FractionMask(e, f), v, RawBits(n, v, w)))
  }

  /** Float(value_str): 1 sign, 8 exponent and 23 fraction bits. */
  function Float<V>(n: Numerics<V>, token: string): Option<FloatingPoint<V>>
  {
    NewFloatingPoint(n, token, F32, 1, 8, 23)
  }

  /** Double(value_str): 1 sign, 11 exponent and 52 fraction bits. */
  function Double<V>(n: Numerics<V>, token: string): Option<FloatingPoint<V>>
  {
    NewFloatingPoint(n, token, F64, 1, 11, 52)
  }

  /**
   * The objects Float and Double build: one sign bit, at least eight exponent
   * bits and at least as many fraction bits, the masks __init__ computes, and
   * a raw-bit value in the signed range of the layout.
   */
  predicate Valid<V>(fp: FloatingPoint<V>)
  {
    var e, f := fp.exponentBitcount, fp.fractionBitcount;
    fp.signBitcount == 1 && 8 <= e <= f &&
    fp.signBitmask == SignMask(e, f) &&
    fp.exponentBitmask == ExponentMask(e, f) &&
    fp.fractionBitmask == FractionMask(e, f) &&
    -Pow2(e + f) <= fp.bits < Pow2(e + f)
  }

  lemma FloatIsValid<V>(n: Numerics<V>, token: string)
    ensures Float(n, token).Some? ==> Valid(Float(n, token).value)
  {
  }

  lemma DoubleIsValid<V>(n: Numerics<V>, token: string)
    ensures Double(n, token).Some? ==> Valid(Double(n, token).value)
  {
  }

  function SignBit<V>(fp: FloatingPoint<V>): int
  {
    ShiftRight(And(fp.bits, fp.signBitmask), fp.exponentBitcount + fp.fractionBitcount)
  }

  function FractionBits<V>(fp: FloatingPoint<V>): int
  {
    And(fp.bits, fp.fractionBitmask)
  }

  function IsNaN<V>(fp: FloatingPoint<V>): bool
  {
    And(fp.bits, fp.exponentBitmask) == fp.exponentBitmask && FractionBits(fp) != 0
  }

  /** exponent_bits as written: it shifts by the fraction MASK instead of the fraction bit count. */
  function ExponentBitsAsWritten<V>(fp: FloatingPoint<V>): int
    requires Valid(fp)
  {
    FractionMaskValue(fp.exponentBitcount, fp.fractionBitcount);
    ShiftRight(And(fp.bits, fp.exponentBitmask), fp.fractionBitmask)
  }

  /** exponent_bits as evidently intended: shift by the fraction bit count. */
  function ExponentBits<V>(fp: FloatingPoint<V>): int
  {
    ShiftRight(And(fp.bits, fp.exponentBitmask), fp.fractionBitcount)
  }

  // ---------------------------------------------------------------------
  // The masks

  /** Which bits each mask holds: sign at e+f and above, exponent in [f, e+f), fraction below f. */
  lemma MaskBits(e: nat, f: nat, i: nat)
    ensures Bit(SignMask(e, f), i) == (i >= e + f)
    ensures Bit(ExponentMask(e, f), i) == (f <= i < e + f)
    ensures Bit(FractionMask(e, f), i) == (i < f)
  {
    MinusOneBits(i);
    if i >= e + f { MinusOneBits(i - e - f); }
    if i >= f { MinusOneBits(i - f); }
    ShiftLeftBit(Not(0), e + f, i);
    ShiftLeftBit(Not(0), f, i);
    NotBit(SignMask(e, f), i);
    AndBit(ShiftLeft(Not(0), f), Not(SignMask(e, f)), i);
    OrBit(SignMask(e, f), ExponentMask(e, f), i);
    NotBit(Or(SignMask(e, f), ExponentMask(e, f)), i);
  }

  /** The three masks are pairwise disjoint and together cover every bit. */
  lemma MasksPartition(e: nat, f: nat)
    ensures And(SignMask(e, f), ExponentMask(e, f)) == 0
    ensures And(SignMask(e, f), FractionMask(e, f)) == 0
    ensures And(ExponentMask(e, f), FractionMask(e, f)) == 0
    ensures Or(Or(SignMask(e, f), ExponentMask(e, f)), FractionMask(e, f)) == -1
  {
    var s, x, m := SignMask(e, f), ExponentMask(e, f), FractionMask(e, f);
    forall i: nat
      ensures Bit(And(s, x), i) == Bit(0, i)
      ensures Bit(And(s, m), i) == Bit(0, i)
      ensures Bit(And(x, m), i) == Bit(0, i)
      ensures Bit(Or(Or(s, x), m), i) == Bit(-1, i)
    {
      MaskBits(e, f, i);
      ZeroBits(i);
      MinusOneBits(i);
      AndBit(s, x, i);
      AndBit(s, m, i);
      AndBit(x, m, i);
      OrBit(s, x, i);
      OrBit(Or(s, x), m, i);
    }
    BitExt(And(s, x), 0);
    BitExt(And(s, m), 0);
    BitExt(And(x, m), 0);
    BitExt(Or(Or(s, x), m), -1);
  }

  lemma {:induction false} ShiftLeftIsProduct(x: int, n: nat)
    ensures ShiftLeft(x, n) == x * Pow2(n)
  {
    if n > 0 {
      ShiftLeftIsProduct(x, n - 1);
      assert 2 * (x * Pow2(n - 1)) == x * (2 * Pow2(n - 1));
    }
  }

  lemma {:induction false} Pow2Add(a: nat, b: nat)
    ensures Pow2(a + b) == Pow2(a) * Pow2(b)
  {
    if a > 0 {
      Pow2Add(a - 1, b);
      assert Pow2(a + b) == 2 * Pow2(a - 1 + b);
      assert 2 * (Pow2(a - 1) * Pow2(b)) == (2 * Pow2(a - 1)) * Pow2(b);
    }
  }

  lemma {:induction false} Pow2Large(n: nat)
    requires n >= 3
    ensures Pow2(n) >= 2 * n + 2
  {
    if n > 3 { Pow2Large(n - 1); }
  }

  /** The sign mask is -2^(e+f). */
  lemma SignMaskValue(e: nat, f: nat)
    ensures SignMask(e, f) == -Pow2(e + f)
  {
    ShiftLeftIsProduct(-1, e + f);
  }

  /** The fraction mask is 2^f - 1. */
  lemma FractionMaskValue(e: nat, f: nat)
    ensures FractionMask(e, f) == Pow2(f) - 1
  {
    forall i: nat ensures Bit(FractionMask(e, f), i) == Bit(Pow2(f) - 1, i) {
      MaskBits(e, f, i);
      LowMaskBit(f, i);
    }
    BitExt(FractionMask(e, f), Pow2(f) - 1);
  }

  /** The exponent mask is 2^(e+f) - 2^f. */
  lemma ExponentMaskValue(e: nat, f: nat)
    ensures ExponentMask(e, f) == Pow2(e + f) - Pow2(f)
  {
    ExponentMaskShifted(e, f);
    ShiftedLowMask(e, f);
  }

  /** Bit by bit, the exponent mask is e ones shifted left past the fraction. */
  lemma ExponentMaskShifted(e: nat, f: nat)
    ensures ExponentMask(e, f) == ShiftLeft(Pow2(e) - 1, f)
  {
    var high := ShiftLeft(Pow2(e) - 1, f);
    forall i: nat ensures Bit(ExponentMask(e, f), i) == Bit(high, i) {
      MaskBits(e, f, i);
      ShiftLeftBit(Pow2(e) - 1, f, i);
      if i >= f { LowMaskBit(e, i - f); }
    }
    BitExt(ExponentMask(e, f), high);
  }

  /** e ones shifted left by f is 2^(e+f) - 2^f. */
  lemma ShiftedLowMask(e: nat, f: nat)
    ensures ShiftLeft(Pow2(e) - 1, f) == Pow2(e + f) - Pow2(f)
  {
    ShiftLeftIsProduct(Pow2(e) - 1, f);
    Pow2Add(e, f);
  }

  /** The masks of Float, as the hexadecimal comments of fpdiff.py give them (the sign mask is negative in Python). */
  lemma FloatMasks(e: nat, f: nat)
    requires e == 8 && f == 23
    ensures SignMask(e, f) == -0x8000_0000
    ensures ExponentMask(e, f) == 0x7F80_0000
    ensures FractionMask(e, f) == 0x007F_FFFF
  {
    SignMaskValue(e, f);
    ExponentMaskValue(e, f);
    FractionMaskValue(e, f);
    Pow2Values();
  }

  /** The masks of Double. */
  lemma DoubleMasks(e: nat, f: nat)
    requires e == 11 && f == 52
    ensures SignMask(e, f) == -0x8000_0000_0000_0000
    ensures ExponentMask(e, f) == 0x7FF0_0000_0000_0000
    ensures FractionMask(e, f) == 0x000F_FFFF_FFFF_FFFF
  {
    SignMaskValue(e, f);
    ExponentMaskValue(e, f);
    FractionMaskValue(e, f);
    Pow2Values();
  }

  lemma Pow2Values()
    ensures Pow2(23) == 0x80_0000 && Pow2(31) == 0x8000_0000
    ensures Pow2(52) == 0x10_0000_0000_0000 && Pow2(63) == 0x8000_0000_0000_0000
  {
    assert Pow2(8) == 0x100;
    assert Pow2(16) == 0x1_0000;
    Pow2Add(8, 8);
    Pow2Add(16, 7);
    Pow2Add(16, 15);
    Pow2Add(16, 16);
    Pow2Add(32, 20);
    Pow2Add(32, 31);
  }

  // ---------------------------------------------------------------------
  // sign_bit, is_nan, exponent_bits

  /** Every bit of sign_bit() is the sign of the raw bits. */
  lemma SignBitBits<V>(fp: FloatingPoint<V>, i: nat)
    requires Valid(fp)
    ensures Bit(SignBit(fp), i) == (fp.bits < 0)
  {
    var k := fp.exponentBitcount + fp.fractionBitcount;
    ShiftRightBit(And(fp.bits, fp.signBitmask), k, i);
    AndBit(fp.bits, fp.signBitmask, i + k);
    MaskBits(fp.exponentBitcount, fp.fractionBitcount, i + k);
    SignExtension(fp.bits, k, i + k);
  }

  /** sign_bit() is 0 or -1, and -1 exactly for a negative raw-bit value. */
  lemma SignBitValue<V>(fp: FloatingPoint<V>)
    requires Valid(fp)
    ensures SignBit(fp) == (if fp.bits < 0 then -1 else 0)
  {
    var expected := if fp.bits < 0 then -1 else 0;
    forall i: nat ensures Bit(SignBit(fp), i) == Bit(expected, i) {
      SignBitBits(fp, i);
      ZeroBits(i);
      MinusOneBits(i);
    }
    BitExt(SignBit(fp), expected);
  }

  /** The bits of the two masked views is_nan() looks at. */
  lemma MaskedBits<V>(fp: FloatingPoint<V>, i: nat)
    requires Valid(fp)
    ensures Bit(And(fp.bits, fp.exponentBitmask), i) ==
      (Bit(fp.bits, i) && fp.fractionBitcount <= i < fp.exponentBitcount + fp.fractionBitcount)
    ensures Bit(FractionBits(fp), i) == (Bit(fp.bits, i) && i < fp.fractionBitcount)
  {
    AndBit(fp.bits, fp.exponentBitmask, i);
    AndBit(fp.bits, fp.fractionBitmask, i);
    MaskBits(fp.exponentBitcount, fp.fractionBitcount, i);
  }

  /** All exponent bits set: the masked value equals the exponent mask. */
  lemma ExponentAllSet<V>(fp: FloatingPoint<V>)
    requires Valid(fp)
    ensures And(fp.bits, fp.exponentBitmask) == fp.exponentBitmask <==>
      forall i: nat :: fp.fractionBitcount <= i < fp.exponentBitcount + fp.fractionBitcount ==> Bit(fp.bits, i)
  {
    var e, f := fp.exponentBitcount, fp.fractionBitcount;
    var x := And(fp.bits, fp.exponentBitmask);
    if forall i: nat :: f <= i < e + f ==> Bit(fp.bits, i) {
      forall i: nat ensures Bit(x, i) == Bit(fp.exponentBitmask, i) {
        MaskedBits(fp, i);
        MaskBits(e, f, i);
      }
      BitExt(x, fp.exponentBitmask);
    } else {
      var i: nat :| f <= i < e + f && !Bit(fp.bits, i);
      MaskedBits(fp, i);
      MaskBits(e, f, i);
    }
  }

  /** Some fraction bit set: the masked fraction is non-zero. */
  lemma FractionNonZero<V>(fp: FloatingPoint<V>)
    requires Valid(fp)
    ensures FractionBits(fp) != 0 <==> exists i: nat :: i < fp.fractionBitcount && Bit(fp.bits, i)
  {
    var f := fp.fractionBitcount;
    var y := FractionBits(fp);
    if exists i: nat :: i < f && Bit(fp.bits, i) {
      var i: nat :| i < f && Bit(fp.bits, i);
      MaskedBits(fp, i);
      ZeroBits(i);
    } else {
      forall i: nat ensures Bit(y, i) == Bit(0, i) {
        MaskedBits(fp, i);
        ZeroBits(i);
      }
      BitExt(y, 0);
    }
  }

  /**
   * is_nan() holds exactly when every exponent bit is set and some fraction
   * bit is set; so the infinities (fraction zero) are not NaN.
   */
  lemma IsNaNBits<V>(fp: FloatingPoint<V>)
    requires Valid(fp)
    ensures IsNaN(fp) <==>
      (forall i: nat :: fp.fractionBitcount <= i < fp.exponentBitcount + fp.fractionBitcount ==> Bit(fp.bits, i)) &&
      (exists i: nat :: i < fp.fractionBitcount && Bit(fp.bits, i))
  {
    ExponentAllSet(fp);
    FractionNonZero(fp);
  }

  /** As written, exponent_bits() is 0 for every Float and Double. */
  lemma ExponentBitsAsWrittenIsZero<V>(fp: FloatingPoint<V>)
    requires Valid(fp)
    ensures ExponentBitsAsWritten(fp) == 0
  {
    var e, f := fp.exponentBitcount, fp.fractionBitcount;
    ExponentMaskValue(e, f);
    FractionMaskValue(e, f);
    Pow2Large(f);
    Pow2Monotone(f, e + f);
    AndBounded(fp.bits, fp.exponentBitmask);
    ShiftRightSmall(And(fp.bits, fp.exponentBitmask), e + f, fp.fractionBitmask);
  }

  lemma {:induction false} ShiftRightNonNegative(x: int, n: nat)
    requires x >= 0
    ensures ShiftRight(x, n) >= 0
    decreases n
  {
    if n > 0 { ShiftRightNonNegative(x / 2, n - 1); }
  }

  /** The corrected exponent_bits() is the biased exponent field: bits f .. e+f-1 of the raw bits. */
  lemma ExponentBitsField<V>(fp: FloatingPoint<V>, i: nat)
    requires Valid(fp)
    ensures Bit(ExponentBits(fp), i) == (i < fp.exponentBitcount && Bit(fp.bits, fp.fractionBitcount + i))
    ensures 0 <= ExponentBits(fp)
  {
    var e, f := fp.exponentBitcount, fp.fractionBitcount;
    ShiftRightBit(And(fp.bits, fp.exponentBitmask), f, i);
    MaskedBits(fp, i + f);
    ExponentMaskValue(e, f);
    Pow2Monotone(f, e + f);
    AndBounded(fp.bits, fp.exponentBitmask);
    ShiftRightNonNegative(And(fp.bits, fp.exponentBitmask), f);
  }

  /**
   * The discrepancy: for a value whose lowest exponent bit is set (the Float
   * of "1.0" has raw bits 0x3F800000), the corrected exponent is non-zero
   * while the code as written returns 0.
   */
  lemma ExponentBitsDiscrepancy<V>(fp: FloatingPoint<V>)
    requires Valid(fp) && Bit(fp.bits, fp.fractionBitcount)
    ensures ExponentBitsAsWritten(fp) == 0 != ExponentBits(fp)
  {
    ExponentBitsAsWrittenIsZero(fp);
    ExponentBitsField(fp, 0);
    ZeroBits(0);
  }

  // ---------------------------------------------------------------------
  // almost_equals

  /**
   * FloatingPoint.almost_equals with explicit tolerances. With `asWritten`
   * the relative error divides by that.value itself, as the code does;
   * otherwise by its magnitude (RelativeErrorBelow), as evidently intended.
   */
  function AlmostEqualsWith<V>(n: Numerics<V>, a: FloatingPoint<V>, b: FloatingPoint<V>,
                               maxAbsDiff: real, maxUlpsDiff: int, maxRelativeError: real, asWritten: bool): bool
  {
    if n.absDiffAtMost(a.value, b.value, maxAbsDiff) then true
    else if SignBit(a) != SignBit(b) then false
    else if Abs(a.bits - b.bits) <= maxUlpsDiff then true
    else if !n.isZero(b.value) then
      (if asWritten then n.relErrorBelow(a.value, b.value, maxRelativeError)
       else RelativeErrorBelow(n, a.value, b.value, maxRelativeError))
    else n.absDiffBelow(a.value, b.value, maxRelativeError)
  }

  /**
   * abs(a - b) / abs(b) < t. For a negative b this is the signed quotient of
   * the negated pair, which IEEE-754 computes exactly as abs(a - b) / -b.
   */
  function RelativeErrorBelow<V>(n: Numerics<V>, a: V, b: V, t: real): bool
  {
    if n.isNegative(b) then n.relErrorBelow(n.negate(a), n.negate(b), t) else n.relErrorBelow(a, b, t)
  }

  function Abs(x: int): nat
  {
    if x < 0 then -x else x
  }

  /** almost_equals as written, with its default tolerances. */
  function AlmostEqualsAsWritten<V>(n: Numerics<V>, a: FloatingPoint<V>, b: FloatingPoint<V>): bool
  {
    AlmostEqualsWith(n, a, b, MAX_ABS_DIFF, MAX_ULPS_DIFF, MAX_RELATIVE_ERROR, true)
  }

  /** almost_equals as evidently intended, with its default tolerances. */
  function AlmostEquals<V>(n: Numerics<V>, a: FloatingPoint<V>, b: FloatingPoint<V>): bool
  {
    AlmostEqualsWith(n, a, b, MAX_ABS_DIFF, MAX_ULPS_DIFF, MAX_RELATIVE_ERROR, false)
  }

  /**
   * The almost_equals that compare_tokens calls: as written, or as evidently
   * intended. Everything from compare_tokens up to diff_files carries this
   * choice, so the model states both what fpdiff.py reports and what it was
   * meant to report.
   */
  function AlmostEqualsAs<V>(n: Numerics<V>, a: FloatingPoint<V>, b: FloatingPoint<V>, asWritten: bool): bool
  {
    if asWritten then AlmostEqualsAsWritten(n, a, b) else AlmostEquals(n, a, b)
  }

  /**
   * The criteria in order: the absolute test accepts; otherwise values of
   * different sign are rejected; otherwise at most four ULPs apart accepts;
   * otherwise the relative error (divided by the magnitude of the second
   * value, or the plain absolute difference when that value is zero) decides.
   */
  lemma AlmostEqualsCriteria<V>(n: Numerics<V>, a: FloatingPoint<V>, b: FloatingPoint<V>)
    requires Valid(a) && Valid(b)
    ensures n.absDiffAtMost(a.value, b.value, MAX_ABS_DIFF) ==> AlmostEquals(n, a, b)
    ensures AlmostEquals(n, a, b) && (a.bits < 0) != (b.bits < 0) ==> n.absDiffAtMost(a.value, b.value, MAX_ABS_DIFF)
    ensures (a.bits < 0) == (b.bits < 0) && -4 <= a.bits - b.bits <= 4 ==> AlmostEquals(n, a, b)
    ensures !n.absDiffAtMost(a.value, b.value, MAX_ABS_DIFF) && (a.bits < 0) == (b.bits < 0) && Abs(a.bits - b.bits) > 4 ==>
      (AlmostEquals(n, a, b) <==>
        (if n.isZero(b.value) then n.absDiffBelow(a.value, b.value, MAX_RELATIVE_ERROR)
         else if n.isNegative(b.value) then n.relErrorBelow(n.negate(a.value), n.negate(b.value), MAX_RELATIVE_ERROR)
         else n.relErrorBelow(a.value, b.value, MAX_RELATIVE_ERROR)))
  {
    SignBitValue(a);
    SignBitValue(b);
  }

  /**
   * As written, the relative test accepts every pair of same-signed values
   * whose second value is finite and negative: "-1.0" and "-2.0" are far
   * apart in absolute and in ULP terms, yet almost_equals returns True.
   */
  lemma NegativeDivisorAccepted<V(!new)>(n: Numerics<V>, a: FloatingPoint<V>, b: FloatingPoint<V>)
    requires SignLaws(n) && Valid(a) && Valid(b)
    requires (a.bits < 0) == (b.bits < 0)
    requires !n.isNaN(a.value) && n.isFinite(b.value) && n.isNegative(b.value)
    ensures AlmostEqualsAsWritten(n, a, b)
  {
    SignBitValue(a);
    SignBitValue(b);
  }

  /**
   * The intended test agrees with the code whenever the second value is not
   * negative; for a negative one it divides by a positive value, to which
   * the law that forced acceptance above does not apply.
   */
  lemma AlmostEqualsIntended<V(!new)>(n: Numerics<V>, a: FloatingPoint<V>, b: FloatingPoint<V>)
    requires SignLaws(n)
    ensures !n.isNegative(b.value) ==> (AlmostEquals(n, a, b) <==> AlmostEqualsAsWritten(n, a, b))
    ensures n.isNegative(b.value) ==>
      !n.isZero(n.negate(b.value)) && !n.isNegative(n.negate(b.value)) &&
      (AlmostEquals(n, a, b) <==>
        (n.absDiffAtMost(a.value, b.value, MAX_ABS_DIFF) ||
         (SignBit(a) == SignBit(b) &&
          (Abs(a.bits - b.bits) <= MAX_ULPS_DIFF ||
           n.relErrorBelow(n.negate(a.value), n.negate(b.value), MAX_RELATIVE_ERROR)))))
  {
  }

  /** Every value is almost equal to itself, as written and as intended, whatever the oracles answer (NaN included). */
  lemma AlmostEqualsReflexive<V>(n: Numerics<V>, a: FloatingPoint<V>)
    ensures AlmostEquals(n, a, a) && AlmostEqualsAsWritten(n, a, a)
  {
  }

  // ---------------------------------------------------------------------
  // compare_tokens, compare_lines

  /** The outcome of one `try` block of compare_tokens; None where a ValueError is caught. */
  function TryWidth<V>(n: Numerics<V>, left: Option<FloatingPoint<V>>, right: Option<FloatingPoint<V>>, asWritten: bool): Option<bool>
  {
    if left.None? || right.None? then None
    else if IsNaN(left.value) && IsNaN(right.value) then Some(true)
    else Some(AlmostEqualsAs(n, left.value, right.value, asWritten))
  }

  function CompareTokens<V>(n: Numerics<V>, left: string, right: string, asWritten: bool): bool
  {
    match TryWidth(n, Float(n, left), Float(n, right), asWritten)
    case Some(b) => b
    case None =>
      match TryWidth(n, Double(n, left), Double(n, right), asWritten)
      case Some(b) => b
      case None => left == right
  }

  /**
   * compare_tokens decides at 32 bits when both tokens parse there, else at
   * 64 bits when both parse there, else by string equality; two NaNs of the
   * deciding width are equal.
   */
  lemma CompareTokensOrder<V>(n: Numerics<V>, left: string, right: string, asWritten: bool)
    ensures Float(n, left).Some? && Float(n, right).Some? ==>
      CompareTokens(n, left, right, asWritten) ==
        ((IsNaN(Float(n, left).value) && IsNaN(Float(n, right).value)) ||
         AlmostEqualsAs(n, Float(n, left).value, Float(n, right).value, asWritten))
    ensures (Float(n, left).None? || Float(n, right).None?) && Double(n, left).Some? && Double(n, right).Some? ==>
      CompareTokens(n, left, right, asWritten) ==
        ((IsNaN(Double(n, left).value) && IsNaN(Double(n, right).value)) ||
         AlmostEqualsAs(n, Double(n, left).value, Double(n, right).value, asWritten))
    ensures (Float(n, left).None? || Float(n, right).None?) && (Double(n, left).None? || Double(n, right).None?) ==>
      CompareTokens(n, left, right, asWritten) == (left == right)
  {
  }

  /** A token always matches itself. */
  lemma CompareTokensReflexive<V>(n: Numerics<V>, t: string, asWritten: bool)
    ensures CompareTokens(n, t, t, asWritten)
  {
    if Float(n, t).Some? {
      AlmostEqualsReflexive(n, Float(n, t).value);
    } else if Double(n, t).Some? {
      AlmostEqualsReflexive(n, Double(n, t).value);
    }
  }

  function AllTokensMatch<V>(n: Numerics<V>, left: seq<string>, right: seq<string>, asWritten: bool): bool
    requires |left| == |right|
  {
    |left| == 0 || (CompareTokens(n, left[0], right[0], asWritten) && AllTokensMatch(n, left[1..], right[1..], asWritten))
  }

  /** compare_lines: split both lines on the delimiter (Python's str.split) and compare positionally. */
  function CompareLines<V>(n: Numerics<V>, left: string, right: string, delimiter: string, asWritten: bool): bool
    requires |delimiter| > 0
  {
    var tl, tr := SplitOn(left, delimiter), SplitOn(right, delimiter);
    |tl| == |tr| && AllTokensMatch(n, tl, tr, asWritten)
  }

  lemma {:induction false} AllTokensMatchSpec<V>(n: Numerics<V>, left: seq<string>, right: seq<string>, asWritten: bool)
    requires |left| == |right|
    ensures AllTokensMatch(n, left, right, asWritten) <==> forall i :: 0 <= i < |left| ==> CompareTokens(n, left[i], right[i], asWritten)
  {
    if |left| > 0 {
      AllTokensMatchSpec(n, left[1..], right[1..], asWritten);
      assert forall i :: 1 <= i < |left| ==> left[1..][i - 1] == left[i] && right[1..][i - 1] == right[i];
    }
  }

  /** Lines match exactly when they have as many tokens and the tokens match position by position. */
  lemma CompareLinesSpec<V>(n: Numerics<V>, left: string, right: string, delimiter: string, asWritten: bool)
    requires |delimiter| > 0
    ensures CompareLines(n, left, right, delimiter, asWritten) <==>
      var tl, tr := SplitOn(left, delimiter), SplitOn(right, delimiter);
      |tl| == |tr| && forall i :: 0 <= i < |tl| ==> CompareTokens(n, tl[i], tr[i], asWritten)
  {
    var tl, tr := SplitOn(left, delimiter), SplitOn(right, delimiter);
    if |tl| == |tr| { AllTokensMatchSpec(n, tl, tr, asWritten); }
  }

  lemma CompareLinesReflexive<V>(n: Numerics<V>, line: string, delimiter: string, asWritten: bool)
    requires |delimiter| > 0
    ensures CompareLines(n, line, line, delimiter, asWritten)
  {
    var t := SplitOn(line, delimiter);
    forall i | 0 <= i < |t| ensures CompareTokens(n, t[i], t[i], asWritten) {
      CompareTokensReflexive(n, t[i], asWritten);
    }
    CompareLinesSpec(n, line, line, delimiter, asWritten);
  }

  // ---------------------------------------------------------------------
  // diff_files

  /** A mismatch record: [line_from_left, line_from_right]. */
  type Mismatches = map<int, (string, string)>

  /** What readline() returns on the k-th call: the next line, or "" at end of file. */
  function ReadLine(lines: seq<string>, k: nat): string
  {
    if k < |lines| then lines[k] else ""
  }

  /** With no empty line in the file, readline returns "" exactly at its end. */
  lemma ReadLineAtEnd(lines: seq<string>, k: nat)
    requires forall j :: 0 <= j < |lines| ==> lines[j] != ""
    ensures ReadLine(lines, k) == "" <==> k >= |lines|
    ensures k < |lines| ==> ReadLine(lines, k) == lines[k]
  {
  }

  /** The line comparison diff_files applies: compare_lines with the given delimiter. */
  function LinesMatch<V>(n: Numerics<V>, delimiter: string, asWritten: bool): (string, string) -> bool
    requires |delimiter| > 0
  {
    (a, b) => CompareLines(n, a, b, delimiter, asWritten)
  }

  /** The mismatches found among the first `count` line pairs, keyed by 1-based line number. */
  function PairMismatches(same: (string, string) -> bool, left: seq<string>, right: seq<string>, count: nat): Mismatches
    requires count <= |left| && count <= |right|
  {
    if count == 0 then map[]
    else
      var m := PairMismatches(same, left, right, count - 1);
      if same(left[count - 1], right[count - 1]) then m
      else m[count := (left[count - 1], right[count - 1])]
  }

  function Min(a: int, b: int): int
  {
    if a <= b then a else b
  }

  /** The dictionary diff_files returns for two files given as their lines, for a line comparison `same`. */
  function Diff(same: (string, string) -> bool, left: seq<string>, right: seq<string>): Mismatches
  {
    var m := PairMismatches(same, left, right, Min(|left|, |right|));
    if |right| < |left| then m[|right| + 1 := (left[|right|], "EOF\n")]
    else if |right| >= |left| + 2 then m[|left| := ("EOF\n", right[|left|])]
    else m
  }

  /**
   * The `for line_left in file_left` loop of diff_files: one right line is
   * read per left line; reaching the end of the right file records the left
   * line against "EOF\n" and leaves the loop. Returns the dictionary, the
   * last line number and the number of readline calls made.
   */
  method ScanLines<V>(n: Numerics<V>, left: seq<string>, right: seq<string>, delimiter: string, asWritten: bool)
    returns (mismatches: Mismatches, lineNumber: nat, cursor: nat)
    requires |delimiter| > 0
    requires forall k :: 0 <= k < |right| ==> right[k] != ""
    ensures |right| < |left| ==>
      lineNumber == cursor == |right| + 1 &&
      mismatches == Diff(LinesMatch(n, delimiter, asWritten), left, right)
    ensures |right| >= |left| ==>
      lineNumber == cursor == |left| &&
      mismatches == PairMismatches(LinesMatch(n, delimiter, asWritten), left, right, |left|)
  {
    ghost var same := LinesMatch(n, delimiter, asWritten);
    lineNumber := 0;
    cursor := 0;
    mismatches := map[];
    var i := 0;
    while i < |left|
      invariant 0 <= i <= |left| && i <= |right|
      invariant lineNumber == i && cursor == i
      invariant mismatches == PairMismatches(same, left, right, i)
    {
      var lineLeft := left[i];
      lineNumber := lineNumber + 1;
      var lineRight := ReadLine(right, cursor);
      ReadLineAtEnd(right, cursor);
      cursor := cursor + 1;
      if lineRight == "" {
        mismatches := mismatches[lineNumber := (lineLeft, "EOF\n")];
        RightEndsFirst(same, left, right, i, mismatches);
        return;
      }
      mismatches := RecordLinePair(n, delimiter, asWritten, left, right, i, mismatches);
      i := i + 1;
    }
    assert i == |left| <= |right|;
  }

  /** The body of the loop for a pair of lines: the pair is recorded when compare_lines fails on it. */
  method RecordLinePair<V>(n: Numerics<V>, delimiter: string, asWritten: bool, left: seq<string>, right: seq<string>, i: nat,
                           mismatches: Mismatches) returns (next: Mismatches)
    requires |delimiter| > 0 && i < |left| && i < |right|
    requires mismatches == PairMismatches(LinesMatch(n, delimiter, asWritten), left, right, i)
    ensures next == PairMismatches(LinesMatch(n, delimiter, asWritten), left, right, i + 1)
  {
    var currentLinesMatch := CompareLines(n, left[i], right[i], delimiter, asWritten);
    LinesMatchApplied(n, delimiter, asWritten, left, right, i);
    next := mismatches;
    if !currentLinesMatch {
      next := next[i + 1 := (left[i], right[i])];
    }
  }

  /** One more line pair: a recorded mismatch exactly when compare_lines fails on it. */
  lemma LinesMatchApplied<V>(n: Numerics<V>, delimiter: string, asWritten: bool, left: seq<string>, right: seq<string>, i: nat)
    requires |delimiter| > 0 && i < |left| && i < |right|
    ensures PairMismatches(LinesMatch(n, delimiter, asWritten), left, right, i + 1) ==
      if CompareLines(n, left[i], right[i], delimiter, asWritten) then PairMismatches(LinesMatch(n, delimiter, asWritten), left, right, i)
      else PairMismatches(LinesMatch(n, delimiter, asWritten), left, right, i)[i + 1 := (left[i], right[i])]
  {
  }

  /** A right file shorter than the left one: its end is recorded against the next left line. */
  lemma RightEndsFirst(same: (string, string) -> bool, left: seq<string>, right: seq<string>, i: nat, mismatches: Mismatches)
    requires i == |right| < |left|
    requires mismatches == PairMismatches(same, left, right, i)[i + 1 := (left[i], "EOF\n")]
    ensures mismatches == Diff(same, left, right)
  {
  }

  /**
   * diff_files over the two files' lines (each line as Python yields it, so
   * never empty): the scan above, then two more readline calls, the second
   * of which decides whether the first one's line is recorded against "EOF\n".
   * With `asWritten` the tokens are compared by almost_equals as fpdiff.py
   * has it, otherwise by the corrected comparison.
   */
  method DiffFiles<V>(n: Numerics<V>, left: seq<string>, right: seq<string>, delimiter: string, asWritten: bool)
    returns (mismatches: Mismatches)
    requires |delimiter| > 0
    requires forall k :: 0 <= k < |right| ==> right[k] != ""
    ensures mismatches == Diff(LinesMatch(n, delimiter, asWritten), left, right)
  {
    var lineNumber, cursor;
    mismatches, lineNumber, cursor := ScanLines(n, left, right, delimiter, asWritten);
    var lineRight := ReadLine(right, cursor);
    cursor := cursor + 1;
    if ReadLine(right, cursor) != "" {
      mismatches := mismatches[lineNumber := ("EOF\n", lineRight)];
    }
  }

  /** Keys of the pair mismatches are exactly the unequal line pairs. */
  lemma {:induction false} PairMismatchesSpec(same: (string, string) -> bool, left: seq<string>, right: seq<string>, count: nat, k: int)
    requires count <= |left| && count <= |right|
    ensures k in PairMismatches(same, left, right, count) <==>
      1 <= k <= count && !same(left[k - 1], right[k - 1])
    ensures k in PairMismatches(same, left, right, count) ==>
      PairMismatches(same, left, right, count)[k] == (left[k - 1], right[k - 1])
  {
    if count > 0 {
      PairMismatchesSpec(same, left, right, count - 1, k);
    }
  }

  /** A file diffed against itself has no mismatches, for any reflexive line comparison ... */
  lemma DiffSelf(same: (string, string) -> bool, lines: seq<string>)
    requires forall k :: 0 <= k < |lines| ==> same(lines[k], lines[k])
    ensures Diff(same, lines, lines) == map[]
  {
    var m := PairMismatches(same, lines, lines, |lines|);
    forall k ensures k !in m {
      PairMismatchesSpec(same, lines, lines, |lines|, k);
    }
    assert m == map[];
  }

  /** ... and compare_lines is reflexive, so diff_files of a file with itself is empty. */
  lemma DiffFilesSelf<V>(n: Numerics<V>, lines: seq<string>, delimiter: string, asWritten: bool)
    requires |delimiter| > 0
    ensures Diff(LinesMatch(n, delimiter, asWritten), lines, lines) == map[]
  {
    forall k | 0 <= k < |lines| ensures LinesMatch(n, delimiter, asWritten)(lines[k], lines[k]) {
      CompareLinesReflexive(n, lines[k], delimiter, asWritten);
    }
    DiffSelf(LinesMatch(n, delimiter, asWritten), lines);
  }

  /**
   * The relative-error slip reaches the report: two one-token lines holding
   * same-signed values, the right one negative and finite, are never recorded
   * by diff_files as written, however far apart they are ("-1.0" against
   * "-2.0"), while with the corrected comparison they are recorded exactly
   * when the tokens do not match.
   */
  lemma DiffAcceptsNegativePair<V(!new)>(n: Numerics<V>, left: string, right: string, delimiter: string)
    requires SignLaws(n) && |delimiter| > 0
    requires !Contains(left, delimiter) && !Contains(right, delimiter)
    requires Float(n, left).Some? && Float(n, right).Some?
    requires (Float(n, left).value.bits < 0) == (Float(n, right).value.bits < 0)
    requires !n.isNaN(Float(n, left).value.value)
    requires n.isFinite(Float(n, right).value.value) && n.isNegative(Float(n, right).value.value)
    ensures Diff(LinesMatch(n, delimiter, true), [left], [right]) == map[]
    ensures Diff(LinesMatch(n, delimiter, false), [left], [right]) ==
      if CompareTokens(n, left, right, false) then map[] else map[1 := (left, right)]
  {
    var a, b := Float(n, left).value, Float(n, right).value;
    FloatIsValid(n, left);
    FloatIsValid(n, right);
    NegativeDivisorAccepted(n, a, b);
    assert CompareTokens(n, left, right, true);
    OneTokenLines(n, left, right, delimiter, true);
    OneTokenLines(n, left, right, delimiter, false);
    OneLinePair(LinesMatch(n, delimiter, true), left, right);
    OneLinePair(LinesMatch(n, delimiter, false), left, right);
  }

  /** Lines without the delimiter are single tokens: they match exactly when the tokens do. */
  lemma OneTokenLines<V>(n: Numerics<V>, left: string, right: string, delimiter: string, asWritten: bool)
    requires |delimiter| > 0 && !Contains(left, delimiter) && !Contains(right, delimiter)
    ensures LinesMatch(n, delimiter, asWritten)(left, right) == CompareTokens(n, left, right, asWritten)
  {
    SplitOnAbsent(left, delimiter);
    SplitOnAbsent(right, delimiter);
    assert AllTokensMatch(n, [left], [right], asWritten) == CompareTokens(n, left, right, asWritten);
  }

  /** One line against one line: recorded at line 1 exactly when the comparison fails. */
  lemma OneLinePair(same: (string, string) -> bool, left: string, right: string)
    ensures Diff(same, [left], [right]) == if same(left, right) then map[] else map[1 := (left, right)]
  {
    assert PairMismatches(same, [left], [right], 0) == map[];
  }

  /**
   * Equal lines never appear; an unequal pair is recorded at its 1-based line
   * number, unless that number is the one the end-of-file entry overwrites.
   */
  lemma DiffPairs(same: (string, string) -> bool, left: seq<string>, right: seq<string>, k: int)
    requires 1 <= k <= Min(|left|, |right|)
    requires !(|right| >= |left| + 2 && k == |left|)
    ensures k in Diff(same, left, right) <==> !same(left[k - 1], right[k - 1])
    ensures k in Diff(same, left, right) ==> Diff(same, left, right)[k] == (left[k - 1], right[k - 1])
  {
    PairMismatchesSpec(same, left, right, Min(|left|, |right|), k);
  }

  /** When the right file ends first, the next left line is recorded against "EOF\n" and nothing after it. */
  lemma DiffRightEndsFirst(same: (string, string) -> bool, left: seq<string>, right: seq<string>)
    requires |right| < |left|
    ensures Diff(same, left, right)[|right| + 1] == (left[|right|], "EOF\n")
    ensures forall k :: k in Diff(same, left, right) ==> 1 <= k <= |right| + 1
  {
    forall k | k in Diff(same, left, right) ensures 1 <= k <= |right| + 1 {
      PairMismatchesSpec(same, left, right, |right|, k);
    }
  }

  /**
   * Trailing right-file content is reported only when at least two extra
   * lines remain, at the last left line number (0 for an empty left file),
   * as ["EOF\n", first extra line]; otherwise only line pairs are reported.
   */
  lemma DiffRightLonger(same: (string, string) -> bool, left: seq<string>, right: seq<string>)
    requires |right| >= |left|
    ensures |right| >= |left| + 2 ==> Diff(same, left, right)[|left|] == ("EOF\n", right[|left|])
    ensures |right| < |left| + 2 ==> forall k :: k in Diff(same, left, right) ==> 1 <= k <= |left|
  {
    forall k | k in PairMismatches(same, left, right, |left|) ensures 1 <= k <= |left| {
      PairMismatchesSpec(same, left, right, |left|, k);
    }
  }
}
