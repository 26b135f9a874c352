/**
 Exact numerics (`numeric.rs`): integers of any size against binary64 floats,
 compared through the float's bits without rounding. A float is its 64 bits;
 what it denotes is given by section 3.4 of IEEE 754-2019.
 */
module Numeric {
  import opened Prelude
  import opened Powers

  const TWO_52 := 0x10_0000_0000_0000
  const TWO_63 := 0x8000_0000_0000_0000
  const TWO_64 := 0x1_0000_0000_0000_0000

  type Bits = b: nat | b < 0x1_0000_0000_0000_0000

  datatype Value = Number(i: int) | BigInteger(n: int) | Float(bits: Bits) | NotNumeric

  datatype Ordering = Less | Equal | Greater

  datatype Error = NonFinite | DivisionByZero | NotANumber

  // ----- Powers of two -----

  function Exp2(e: int): (x: real)
    ensures x > 0.0
  {
    if e >= 0 then Pow2(e) as real else 1.0 / (Pow2(-e) as real)
  }

  lemma Exp2Next(e: int)
    ensures Exp2(e + 1) == 2.0 * Exp2(e)
  {
    if e < 0 {
      assert Pow2(-e) == 2 * Pow2(-e - 1);
      var p := Pow2(-e - 1) as real;
      assert Pow2(-e) as real == 2.0 * p;
      HalfTwice(p);
    }
  }

  lemma HalfTwice(p: real)
    requires p > 0.0
    ensures 1.0 / p == 2.0 * (1.0 / (2.0 * p))
  {
    var x := 1.0 / (2.0 * p);
    assert x * (2.0 * p) == 1.0;
    assert (2.0 * x) * p == 1.0;
  }

  lemma {:induction false} Exp2Add(e: int, k: nat)
    ensures Exp2(e + k) == Pow2(k) as real * Exp2(e)
    decreases k
  {
    hide Exp2;
    if k > 0 {
      Exp2Add(e, k - 1);
      Exp2Next(e + k - 1);
      assert Pow2(k) as real == 2.0 * (Pow2(k - 1) as real);
      var p, x := Pow2(k - 1) as real, Exp2(e);
      assert 2.0 * (p * x) == (2.0 * p) * x;
    }
  }

  lemma Pow2Is52()
    ensures Pow2(52) == TWO_52
  {
    assert Pow2(8) == 256;
    assert Pow2(16) == 0x1_0000;
    assert Pow2(24) == 0x100_0000;
    assert Pow2(32) == 0x1_0000_0000;
    assert Pow2(40) == 0x100_0000_0000;
    assert Pow2(48) == 0x1_0000_0000_0000;
  }

  // ----- What bits denote -----

  function Negative(b: Bits): bool { b / TWO_63 != 0 }

  function Exponent(b: Bits): nat { b / TWO_52 % 2048 }

  function Fraction(b: Bits): (f: nat)
    ensures f < TWO_52
  {
    b % TWO_52
  }

  predicate Finite(b: Bits) { Exponent(b) != 2047 }

  function Sign(b: Bits): real { if Negative(b) then -1.0 else 1.0 }

  /** The number a finite float stands for: a sign, a power of two and one plus a fraction, or a subnormal. */
  function Denotes(b: Bits): real {
    if Exponent(b) == 0 then Sign(b) * (Exp2(-1022) * (Fraction(b) as real * Exp2(-52)))
    else Sign(b) * (Exp2(Exponent(b) - 1023) * (1.0 + Fraction(b) as real * Exp2(-52)))
  }

  /** The value of a numeric value. */
  function Exactly(v: Value): real
    requires !v.NotNumeric?
  {
    match v
    case Number(i) => i as real
    case BigInteger(n) => n as real
    case Float(b) => Denotes(b)
  }

  function Compare(x: real, y: real): Ordering { if x < y then Less else if x == y then Equal else Greater }

  function CompareInt(x: int, y: int): Ordering { if x < y then Less else if x == y then Equal else Greater }

  function Reverse(o: Ordering): Ordering {
    match o
    case Less => Greater
    case Equal => Equal
    case Greater => Less
  }

  // ----- The code -----

  function Significand(b: Bits): (s: int)
    ensures s >= 0
  {
    if Exponent(b) == 0 then Fraction(b) else Fraction(b) + TWO_52
  }

  function Shift(b: Bits): int { if Exponent(b) == 0 then -1022 - 52 else Exponent(b) - 1023 - 52 }

  function Signed(b: Bits): int { if Negative(b) then -Significand(b) else Significand(b) }

  predicate IsZero(b: Bits) { Exponent(b) == 0 && Fraction(b) == 0 }

  /** `compare_integer_to_float`: integers only, the float's power of two moved to whichever side it multiplies. */
  function CompareIntegerToFloat(n: int, b: Bits): Option<Ordering> {
    if !Finite(b) then None
    else if IsZero(b) then Some(CompareInt(n, 0))
    else if Shift(b) >= 0 then Some(CompareInt(n, Signed(b) * Pow2(Shift(b))))
    else Some(CompareInt(n * Pow2(-Shift(b)), Signed(b)))
  }

  function IntegerOf(v: Value): int
    requires v.Number? || v.BigInteger?
  {
    if v.Number? then v.i else v.n
  }

  /** The bits without the sign. */
  function Unsigned(b: Bits): nat { b % TWO_63 }

  /** `partial_cmp` of finite floats, on their bits: zeros are equal, then the sign, then the rest as one number. */
  function CompareFloats(a: Bits, b: Bits): Ordering {
    if IsZero(a) && IsZero(b) then Equal
    else if Negative(a) != Negative(b) then if Negative(a) then Less else Greater
    else if Negative(a) then CompareInt(Unsigned(b), Unsigned(a))
    else CompareInt(Unsigned(a), Unsigned(b))
  }

  /** `numeric_compare`: None for anything that is no number, an error for a float that is not finite. */
  function NumericCompare(left: Value, right: Value): Result<Option<Ordering>, Error> {
    if left.NotNumeric? || right.NotNumeric? then Ok(None)
    else if left.Float? && right.Float? then
      if !Finite(left.bits) || !Finite(right.bits) then Err(NonFinite)
      else Ok(Some(CompareFloats(left.bits, right.bits)))
    else if left.Float? then
      if !Finite(left.bits) then Err(NonFinite)
      else
        match CompareIntegerToFloat(IntegerOf(right), left.bits)
        case None => Ok(None)
        case Some(o) => Ok(Some(Reverse(o)))
    else if right.Float? then
      if !Finite(right.bits) then Err(NonFinite)
      else Ok(CompareIntegerToFloat(IntegerOf(left), right.bits))
    else Ok(Some(CompareInt(IntegerOf(left), IntegerOf(right))))
  }

  function NumericEqual(left: Value, right: Value): Option<bool> {
    if left.NotNumeric? || right.NotNumeric? then None
    else Some(NumericCompare(left, right) == Ok(Some(Equal)))
  }

  /** `fract() == 0.0` of a finite float. */
  predicate Integral(b: Bits) { Denotes(b) == Denotes(b).Floor as real }

  /** `f64_to_bigint_exact`. */
  function FloatToInteger(b: Bits): Option<int> {
    if !Finite(b) || !Integral(b) then None
    else if Exponent(b) == 0 then if Fraction(b) == 0 then Some(0) else None
    else if Shift(b) >= 0 then
      var n := Significand(b) * Pow2(Shift(b));
      Some(if Negative(b) then -n else n)
    else
      var d := Pow2(-Shift(b));
      if Significand(b) % d != 0 then None
      else
        var n := Significand(b) / d;
        Some(if Negative(b) then -n else n)
  }

  // ----- Agreement with exact arithmetic -----

  /** A float is its signed significand times a power of two. */
  lemma Scaled(b: Bits)
    ensures Denotes(b) == Signed(b) as real * Exp2(Shift(b))
  {
    Pow2Is52();
    hide Pow2, Exp2;
    var f := Fraction(b) as real;
    if Exponent(b) == 0 {
      Exp2Add(-1074, 52);
      Exp2Add(-52, 52);
      Unit();
      SubnormalScale(Exp2(-1022), Exp2(-52), Exp2(-1074), TWO_52 as real, f);
      SignMoves(Negative(b), f, Exp2(-1074));
    } else {
      var e := Shift(b);
      Exp2Add(e, 52);
      Exp2Add(-52, 52);
      Unit();
      NormalScale(Exp2(e + 52), Exp2(-52), Exp2(e), TWO_52 as real, f);
      SignMoves(Negative(b), f + TWO_52 as real, Exp2(e));
    }
  }

  lemma Unit()
    ensures Exp2(0) == 1.0
  {
    assert Pow2(0) == 1;
  }

  lemma SubnormalScale(big: real, small: real, unit: real, p: real, f: real)
    requires big == p * unit && 1.0 == p * small
    ensures big * (f * small) == f * unit
  {
    assert big * (f * small) == (p * unit) * (f * small) == (p * small) * (f * unit);
  }

  lemma NormalScale(big: real, small: real, unit: real, p: real, f: real)
    requires big == p * unit && 1.0 == p * small
    ensures big * (1.0 + f * small) == (f + p) * unit
  {
    SubnormalScale(big, small, unit, p, f);
    assert big * (1.0 + f * small) == big + big * (f * small);
    assert (f + p) * unit == f * unit + p * unit;
  }

  lemma SignMoves(negative: bool, x: real, y: real)
    ensures (if negative then -1.0 else 1.0) * (x * y) == (if negative then -x else x) * y
  {
  }

  /** Scaling both sides by a positive number keeps their order. */
  lemma CompareScaled(x: real, y: real, d: real)
    requires d > 0.0
    ensures Compare(x * d, y * d) == Compare(x, y)
  {
    if x < y {
      assert (y - x) * d > 0.0;
    } else if x > y {
      assert (x - y) * d > 0.0;
    }
  }

  lemma CompareReals(x: int, y: int)
    ensures CompareInt(x, y) == Compare(x as real, y as real)
  {
  }

  lemma Exp2Inverse(k: int)
    requires k > 0
    ensures Exp2(-k) * (Pow2(k) as real) == 1.0
  {
  }

  lemma MultiplyReal(x: int, y: int)
    ensures (x * y) as real == x as real * (y as real)
  {
  }

  /** An integer against `s` parts of `d`, without dividing. */
  lemma CompareDown(n: int, s: int, d: int, y: real)
    requires d > 0 && y * (d as real) == s as real
    ensures CompareInt(n * d, s) == Compare(n as real, y)
  {
    var m, e := n as real, d as real;
    MultiplyReal(n, d);
    CompareScaled(m, y, e);
  }

  lemma ScaleBack(s: real, x: real, d: real)
    requires x * d == 1.0
    ensures (s * x) * d == s
  {
    assert (s * x) * d == s * (x * d);
  }

  lemma ZeroSigned(b: Bits)
    requires IsZero(b)
    ensures Signed(b) == 0
  {
  }

  lemma Exp2Up(e: int)
    requires e >= 0
    ensures Exp2(e) == Pow2(e) as real
  {
  }

  /** Comparing an integer with a finite float agrees with comparing the numbers. */
  lemma IntegerFloatExact(n: int, b: Bits)
    requires Finite(b)
    ensures CompareIntegerToFloat(n, b) == Some(Compare(n as real, Denotes(b)))
  {
    hide Denotes, Exp2, Pow2, Signed, Shift, Compare, CompareInt, Finite, IsZero, Exponent, Fraction;
    Scaled(b);
    var e, s := Shift(b), Signed(b);
    if IsZero(b) {
      ZeroSigned(b);
      CompareReals(n, 0);
      assert s as real * Exp2(e) == 0.0;
    } else if e >= 0 {
      Exp2Up(e);
      MultiplyReal(s, Pow2(e));
      assert (s * Pow2(e)) as real == Denotes(b);
      CompareReals(n, s * Pow2(e));
    } else {
      Exp2Inverse(-e);
      ScaleBack(s as real, Exp2(e), Pow2(-e) as real);
      CompareDown(n, s, Pow2(-e), Denotes(b));
    }
  }

  // ----- Two floats -----

  lemma UnsignedParts(b: Bits)
    ensures Unsigned(b) == Exponent(b) * TWO_52 + Fraction(b)
  {
  }

  /** The size of a float, whatever its sign. */
  function Size(b: Bits): real { Significand(b) as real * Exp2(Shift(b)) }

  lemma SizeSigned(b: Bits)
    ensures Denotes(b) == if Negative(b) then -Size(b) else Size(b)
    ensures Size(b) >= 0.0 && (Size(b) == 0.0 <==> IsZero(b))
  {
    Scaled(b);
    hide Denotes, Exp2, Shift, Exponent, Fraction;
    var s, x := Significand(b) as real, Exp2(Shift(b));
    assert (-s) * x == -(s * x);
    ProductZero(s, x);
  }

  lemma ProductZero(s: real, x: real)
    requires s >= 0.0 && x > 0.0
    ensures s * x >= 0.0 && (s * x == 0.0 <==> s == 0.0)
  {
  }

  lemma ExponentFirst(a: Bits, b: Bits)
    ensures Unsigned(a) == Unsigned(b) <==> Exponent(a) == Exponent(b) && Fraction(a) == Fraction(b)
    ensures Unsigned(a) < Unsigned(b) <==>
            Exponent(a) < Exponent(b) || (Exponent(a) == Exponent(b) && Fraction(a) < Fraction(b))
  {
    UnsignedParts(a);
    UnsignedParts(b);
    hide Unsigned, Exponent;
    hide Fraction;
  }

  /** What the order of the bits says about significand and scale. */
  lemma ScaleFirst(a: Bits, b: Bits)
    requires Unsigned(a) < Unsigned(b)
    ensures (Shift(a) == Shift(b) && Significand(a) < Significand(b))
         || (Shift(a) < Shift(b) && Significand(b) >= TWO_52 && Significand(a) < 2 * TWO_52)
  {
    ExponentFirst(a, b);
    hide Unsigned, Exponent, Fraction;
  }

  /** Reading the bits after the sign as one number orders floats by size. */
  lemma BitsOrderSizes(a: Bits, b: Bits)
    requires Unsigned(a) < Unsigned(b)
    ensures Size(a) < Size(b)
  {
    hide Exp2, Shift, Significand, Unsigned;
    ScaleFirst(a, b);
    if Shift(a) == Shift(b) {
      CompareScaled(Significand(a) as real, Significand(b) as real, Exp2(Shift(a)));
    } else {
      AtLeastTwo(Shift(b) - Shift(a));
      Exp2Add(Shift(a), Shift(b) - Shift(a));
      hide Pow2;
      SteeperScale(Significand(a), Significand(b), Pow2(Shift(b) - Shift(a)), Exp2(Shift(a)));
    }
  }

  lemma AtLeastTwo(k: nat)
    requires k >= 1
    ensures Pow2(k) >= 2
  {
  }

  lemma SteeperScale(s: int, t: int, p: int, x: real)
    requires s < 2 * TWO_52 && t >= TWO_52 && p >= 2 && x > 0.0
    ensures s as real * x < t as real * (p as real * x)
  {
    assert s < t * p by { assert t * p >= t * 2; }
    MultiplyReal(t, p);
    var y := (t * p) as real;
    assert t as real * (p as real * x) == y * x;
    assert (y - s as real) * x > 0.0;
  }

  lemma SameBitsSameSize(a: Bits, b: Bits)
    requires Unsigned(a) == Unsigned(b)
    ensures Size(a) == Size(b) && (IsZero(a) <==> IsZero(b))
  {
    ExponentFirst(a, b);
    hide Unsigned, Exponent, Fraction, Exp2;
  }

  /** Comparing two floats on their bits agrees with comparing the numbers. */
  lemma FloatsExact(a: Bits, b: Bits)
    ensures CompareFloats(a, b) == Compare(Denotes(a), Denotes(b))
  {
    SizeSigned(a);
    SizeSigned(b);
    hide Denotes, Size, Unsigned, IsZero, Negative;
    if Unsigned(a) < Unsigned(b) {
      BitsOrderSizes(a, b);
    } else if Unsigned(b) < Unsigned(a) {
      BitsOrderSizes(b, a);
    } else {
      SameBitsSameSize(a, b);
    }
  }

  predicate FiniteNumber(v: Value) { !v.NotNumeric? && (v.Float? ==> Finite(v.bits)) }

  /** Any two finite numbers, whatever their representation, compare as the numbers they denote. */
  lemma CompareExact(left: Value, right: Value)
    requires FiniteNumber(left) && FiniteNumber(right)
    ensures NumericCompare(left, right) == Ok(Some(Compare(Exactly(left), Exactly(right))))
  {
    hide CompareIntegerToFloat, CompareFloats, Denotes, Finite;
    if left.Float? && right.Float? {
      FloatsExact(left.bits, right.bits);
    } else if left.Float? && !right.Float? {
      IntegerFloatExact(IntegerOf(right), left.bits);
    } else if right.Float? && !left.Float? {
      IntegerFloatExact(IntegerOf(left), right.bits);
    }
  }

  /** Hence the order across representations is a total preorder whose ties are equal numbers. */
  lemma ComparePreorder(a: Value, b: Value, c: Value)
    requires FiniteNumber(a) && FiniteNumber(b) && FiniteNumber(c)
    ensures NumericCompare(a, a) == Ok(Some(Equal))
    ensures NumericCompare(a, b).Ok? && NumericCompare(a, b).value.Some?
    ensures NumericCompare(b, a) == Ok(Some(Reverse(NumericCompare(a, b).value.value)))
    ensures NumericCompare(a, b).value.value != Greater && NumericCompare(b, c).value == Some(Less) ==>
            NumericCompare(a, c).value == Some(Less)
    ensures NumericCompare(a, b).value.value != Greater && NumericCompare(b, c).value == Some(Equal) ==>
            NumericCompare(a, c).value == NumericCompare(a, b).value
    ensures NumericEqual(a, b) == Some(Exactly(a) == Exactly(b))
  {
    hide Exactly, NumericCompare;
    CompareExact(a, a);
    CompareExact(a, b);
    CompareExact(b, a);
    CompareExact(b, c);
    CompareExact(a, c);
  }

  // ----- Integral floats -----

  lemma {:induction false} PowerGrows(j: nat, k: nat)
    requires j <= k
    ensures Pow2(j) <= Pow2(k)
    decreases k
  {
    if j < k { PowerGrows(j, k - 1); }
  }

  lemma AtLeastOnce(n: int, d: int)
    requires n >= 1 && d > 0
    ensures n * d >= d
  {
  }

  /** The only multiple of `d` nearer to zero than `d` is zero. */
  lemma MultipleOfLarger(n: int, d: int)
    requires d > 0 && -d < n * d < d
    ensures n == 0
  {
    assert (-n) * d == -(n * d);
    if n >= 1 { AtLeastOnce(n, d); }
    if n <= -1 { AtLeastOnce(-n, d); }
  }

  /** A number that is both whole and `s` parts of `d`. */
  lemma WholeMultiple(n: int, s: int, d: int, x: real)
    requires d > 0 && x * (d as real) == 1.0 && n as real == s as real * x
    ensures n * d == s
  {
    MultiplyReal(n, d);
    ScaleBack(s as real, x, d as real);
    assert (n * d) as real == s as real;
  }

  lemma Divides(m: int, d: int, s: int)
    requires d > 0 && m * d == s
    ensures s % d == 0 && s / d == m
  {
    var q, r := s / d, s % d;
    assert s == d * q + r;
    assert (m - q) * d == m * d - q * d == r;
    MultipleOfLarger(m - q, d);
  }

  lemma FloorIsWhole(b: Bits)
    requires Integral(b)
    ensures Denotes(b).Floor as real == Signed(b) as real * Exp2(Shift(b))
  {
    Scaled(b);
  }

  lemma SubnormalParts(b: Bits)
    requires Exponent(b) == 0
    ensures Shift(b) == -1074 && -TWO_52 < Signed(b) < TWO_52 && (Signed(b) == 0 ==> Fraction(b) == 0)
  {
    hide Exponent;
  }

  lemma SignedIs(b: Bits)
    ensures Signed(b) == if Negative(b) then -Significand(b) else Significand(b)
  {
    hide Significand, Negative;
  }

  /** A nonzero subnormal is no integer. */
  lemma SubnormalSmall(b: Bits)
    requires Exponent(b) == 0 && Integral(b)
    ensures Fraction(b) == 0
  {
    hide Denotes, Pow2, Exp2, Signed, Integral, Exponent, Fraction, Shift;
    SubnormalParts(b);
    FloorIsWhole(b);
    Pow2Is52();
    PowerGrows(52, 1074);
    Exp2Inverse(1074);
    var n, d := Denotes(b).Floor, Pow2(1074);
    WholeMultiple(n, Signed(b), d, Exp2(-1074));
    MultipleOfLarger(n, d);
  }

  /** Below the binary point an integral float's significand divides evenly. */
  lemma IntegralDivides(b: Bits)
    requires Shift(b) < 0 && Integral(b)
    ensures Significand(b) % Pow2(-Shift(b)) == 0
    ensures
      var q := Significand(b) / Pow2(-Shift(b));
      Denotes(b).Floor == if Negative(b) then -q else q
  {
    hide Denotes, Pow2, Exp2, Negative, Integral, Signed, Significand, Shift;
    FloorIsWhole(b);
    Exp2Inverse(-Shift(b));
    SignedIs(b);
    var n, d := Denotes(b).Floor, Pow2(-Shift(b));
    WholeMultiple(n, Signed(b), d, Exp2(Shift(b)));
    var m := if Negative(b) then -n else n;
    assert (-n) * d == -(n * d);
    Divides(m, d, Significand(b));
  }

  lemma IntegralUp(b: Bits)
    requires Shift(b) >= 0
    ensures (Signed(b) * Pow2(Shift(b))) as real == Denotes(b)
    ensures Signed(b) * Pow2(Shift(b)) ==
            if Negative(b) then -(Significand(b) * Pow2(Shift(b))) else Significand(b) * Pow2(Shift(b))
  {
    hide Denotes, Pow2, Exp2, Negative, Signed, Significand, Shift;
    Scaled(b);
    Exp2Up(Shift(b));
    SignedIs(b);
    MultiplyReal(Signed(b), Pow2(Shift(b)));
    assert (-Significand(b)) * Pow2(Shift(b)) == -(Significand(b) * Pow2(Shift(b)));
  }

  lemma ZeroIsZero(b: Bits)
    requires Exponent(b) == 0 && Fraction(b) == 0
    ensures Denotes(b) == 0.0
  {
    assert 0 as real * Exp2(-52) == 0.0;
    hide Exp2;
  }

  /** The conversion answers exactly for the integral floats, and with the very number. */
  lemma FloatToIntegerExact(b: Bits)
    ensures FloatToInteger(b).Some? <==> Finite(b) && Integral(b)
    ensures FloatToInteger(b).Some? ==> FloatToInteger(b).value as real == Denotes(b)
  {
    if Finite(b) && Integral(b) {
      assert Denotes(b).Floor as real == Denotes(b);
      hide Denotes, Integral, Finite, Pow2, Negative, Fraction;
      if Exponent(b) == 0 {
        SubnormalSmall(b);
        ZeroIsZero(b);
      } else if Shift(b) >= 0 {
        IntegralUp(b);
        hide Significand, Signed, Shift;
      } else {
        IntegralDivides(b);
        hide Significand, Signed, Shift;
      }
    }
  }

  // ----- Integers -----

  predicate IsI64(n: int) { -TWO_63 <= n < TWO_63 }

  /** `compact_integer`. */
  function CompactInteger(n: int): Value { if IsI64(n) then Number(n) else BigInteger(n) }

  /** One representation per integer. */
  predicate Canonical(v: Value) {
    match v
    case Number(i) => IsI64(i)
    case BigInteger(n) => !IsI64(n)
    case _ => false
  }

  datatype ArithmeticOp = Add | Subtract | Multiply | Divide | Remainder | Modulo

  /** Division toward zero. */
  function Quotient(a: int, b: int): int
    requires b != 0
  {
    if a >= 0 then if b > 0 then a / b else -(a / -b)
    else if b > 0 then -(-a / b) else -a / -b
  }

  function Magnitude(n: int): int { if n < 0 then -n else n }

  /** The remainder of the magnitudes, under the dividend's sign. */
  function SignedRemainder(a: int, b: int): int
    requires b != 0
  {
    var r := Magnitude(a) % Magnitude(b);
    if a < 0 then -r else r
  }

  function IntegerBinary(op: ArithmeticOp, a: int, b: int): Result<Value, Error> {
    if (op == Divide || op == Remainder || op == Modulo) && b == 0 then Err(DivisionByZero)
    else
      match op
      case Add => Ok(CompactInteger(a + b))
      case Subtract => Ok(CompactInteger(a - b))
      case Multiply => Ok(CompactInteger(a * b))
      case Divide => Ok(CompactInteger(Quotient(a, b)))
      case _ => Ok(CompactInteger(SignedRemainder(a, b)))
  }

  /** `numeric_negate` on integers: the one machine integer without a negative becomes a big one. */
  function Negate(v: Value): Value
    requires v.Number? || v.BigInteger?
  {
    if v.Number? then if v.i == -TWO_63 then BigInteger(TWO_63) else Number(-v.i)
    else CompactInteger(-v.n)
  }

  /** Division of magnitudes, with the sign put back. */
  lemma QuotientIs(a: int, b: int)
    requires b != 0
    ensures
      var q := Magnitude(a) / Magnitude(b);
      Quotient(a, b) == if (a < 0) == (b < 0) then q else -q
  {
  }

  lemma ProductSigns(a: int, b: int, q: int)
    ensures b * (if (a < 0) == (b < 0) then q else -q) ==
            if a < 0 then -(Magnitude(b) * q) else Magnitude(b) * q
  {
  }

  /** Quotient and remainder recompose, and the remainder keeps the dividend's sign. */
  lemma DivisionRecomposes(a: int, b: int)
    requires b != 0
    ensures
      var q, r := IntegerBinary(Divide, a, b), IntegerBinary(Remainder, a, b);
      q.Ok? && r.Ok? && Canonical(q.value) && Canonical(r.value) &&
      a == b * IntegerOf(q.value) + IntegerOf(r.value) &&
      (IntegerOf(r.value) == 0 || (IntegerOf(r.value) < 0 <==> a < 0)) &&
      -Magnitude(b) < IntegerOf(r.value) < Magnitude(b)
  {
    hide Quotient;
    var x, y := Magnitude(a), Magnitude(b);
    var q := x / y;
    QuotientIs(a, b);
    ProductSigns(a, b, q);
    assert x == y * q + x % y && 0 <= x % y < y;
    assert b * Quotient(a, b) == if a < 0 then -(y * q) else y * q;
    CompactValue(SignedRemainder(a, b));
    CompactValue(Quotient(a, b));
  }

  lemma CompactValue(n: int)
    ensures Canonical(CompactInteger(n)) && IntegerOf(CompactInteger(n)) == n
  {
  }

  /** Negation undoes itself on canonical integers and keeps them canonical. */
  lemma NegateInvolutive(v: Value)
    requires Canonical(v)
    ensures Canonical(Negate(v)) && IntegerOf(Negate(v)) == -IntegerOf(v) && Negate(Negate(v)) == v
  {
  }
}
