/** The values of the three floating-point formats a CBOR item can carry (RFC 8949, section 3.3). */
module Floats {

  /** How many exponent and fraction bits a format has, behind its sign bit. */
  datatype Format = Format(exponentBits: nat, fractionBits: nat)

  const HALF := Format(5, 10)
  const SINGLE := Format(8, 23)
  const DOUBLE := Format(11, 52)

  /**
   * What the bits stand for. A finite number is counted in units of the smallest positive double;
   * the payload of a NaN is padded with zeros on the right to the width of a double's fraction.
   */
  datatype FloatValue = Number(negative: bool, units: nat) | Infinity(negative: bool) | NotANumber(negative: bool, payload: nat)

  function Pow2(n: nat): (p: nat)
    ensures p > 0
  {
    if n == 0 then 1 else 2 * Pow2(n - 1)
  }

  // The exponent of the smallest positive double is -1074.
  const LOWEST: nat := 1074

  predicate Known(f: Format) {
    f == HALF || f == SINGLE || f == DOUBLE
  }

  function Bias(f: Format): nat
    requires Known(f)
  {
    if f == HALF then 15 else if f == SINGLE then 127 else 1023
  }

  function AllOnes(f: Format): nat
    requires Known(f)
  {
    2 * Bias(f) + 1
  }

  /** What one unit in the last place weighs, as a power of two of the smallest double. */
  function Weight(f: Format, exponent: nat): nat
    requires Known(f)
  {
    (if exponent == 0 then 1 else exponent) + LOWEST - Bias(f) - f.fractionBits
  }

  function Value(f: Format, bits: nat): FloatValue
    requires Known(f)
  {
    var fraction := bits % Pow2(f.fractionBits);
    var exponent := bits / Pow2(f.fractionBits) % Pow2(f.exponentBits);
    var negative := bits / Pow2(f.fractionBits) / Pow2(f.exponentBits) % 2 == 1;
    if exponent == AllOnes(f) then
      if fraction == 0 then Infinity(negative) else NotANumber(negative, fraction * Pow2(DOUBLE.fractionBits - f.fractionBits))
    else
      Number(negative, (if exponent == 0 then fraction else fraction + Pow2(f.fractionBits)) * Pow2(Weight(f, exponent)))
  }

  /** Some bits of format `f` stand for this value. */
  ghost predicate Fits(f: Format, v: FloatValue)
    requires Known(f)
  {
    exists bits: nat :: Value(f, bits) == v
  }

  /** No shorter format has the value: the preferred form of section 4.1 of RFC 8949. */
  ghost predicate ShortestFloat(f: Format, bits: nat)
    requires Known(f)
  {
    && (f != HALF ==> !Fits(HALF, Value(f, bits)))
    && (f == DOUBLE ==> !Fits(SINGLE, Value(f, bits)))
  }

  // ---- Values from the examples of RFC 8949, appendix A --------------------------------------

  lemma {:induction false} Pow2Adds(m: nat, n: nat)
    ensures Pow2(m + n) == Pow2(m) * Pow2(n)
    decreases m
  {
    if m > 0 {
      Pow2Adds(m - 1, n);
      assert Pow2(m + n) == 2 * Pow2(m - 1 + n);
    }
  }

  lemma SmallPowers()
    ensures Pow2(5) == 0x20 && Pow2(8) == 0x100 && Pow2(10) == 0x400 && Pow2(11) == 0x800
    ensures Pow2(12) == 0x1000 && Pow2(23) == 0x80_0000 && Pow2(52) == 0x10_0000_0000_0000
  {
    Pow2Adds(5, 5);
    Pow2Adds(10, 13);
    Pow2Adds(26, 26);
    assert Pow2(26) == 0x400_0000;
  }

  /** 1.0 is a half, so a double that says 1.0 is not in its shortest form. */
  lemma OneIsHalf()
    ensures Value(HALF, 0x3C00) == Value(DOUBLE, 0x3FF0_0000_0000_0000)
    ensures !ShortestFloat(DOUBLE, 0x3FF0_0000_0000_0000)
  {
    SmallPowers();
    OneIsOne(Pow2(1064), Pow2(1022));
  }

  lemma OneIsOne(half: nat, double: nat)
    requires half == Pow2(1064) && double == Pow2(1022)
    ensures Value(HALF, 0x3C00) == Number(false, 0x400 * half)
    ensures Value(DOUBLE, 0x3FF0_0000_0000_0000) == Number(false, 0x10_0000_0000_0000 * double)
    ensures 0x400 * half == 0x10_0000_0000_0000 * double
  {
    hide Pow2;
    SmallPowers();
    Pow2Adds(42, 1022);
    Pow2Adds(42, 10);
    assert 0x10_0000_0000_0000 == Pow2(42) * 0x400;
  }

  lemma {:induction false} Pow2Grows(m: nat, n: nat)
    requires m <= n
    ensures Pow2(m) <= Pow2(n)
    decreases n
  {
    if m < n {
      Pow2Grows(m, n - 1);
    }
  }

  /** No finite half reaches 2048 units of its largest weight. */
  lemma HalfIsSmall(bits: nat)
    ensures Value(HALF, bits).Number? ==> Value(HALF, bits).units < 0x800 * Pow2(1079)
  {
    SmallPowers();
    var exponent := bits / Pow2(10) % Pow2(5);
    if exponent != AllOnes(HALF) {
      HalfUnits(bits, exponent, Pow2(Weight(HALF, exponent)), Pow2(1079));
    }
  }

  lemma HalfUnits(bits: nat, exponent: nat, weight: nat, most: nat)
    requires exponent == bits / 0x400 % 0x20 && exponent < 31 && Pow2(10) == 0x400 && Pow2(5) == 0x20
    requires weight == Pow2(Weight(HALF, exponent)) && most == Pow2(1079)
    ensures Value(HALF, bits).units < 0x800 * most
  {
    Pow2Grows(Weight(HALF, exponent), 1079);
    hide Pow2;
    var fraction := bits % 0x400;
    var significand := if exponent == 0 then fraction else fraction + 0x400;
    assert Value(HALF, bits).units == significand * weight;
    Product(significand, weight, most);
  }

  lemma Product(significand: nat, weight: nat, most: nat)
    requires significand < 0x800 && 0 < weight <= most
    ensures significand * weight < 0x800 * most
  {
  }

  /** 100000.0 is no half, so its single is in shortest form. */
  lemma HundredThousandIsSingle()
    ensures ShortestFloat(SINGLE, 0x47C3_5000)
  {
    SmallPowers();
    HundredThousand(Pow2(1067), Pow2(1079));
    if bits: nat :| Value(HALF, bits) == Value(SINGLE, 0x47C3_5000) {
      HalfIsSmall(bits);
    }
  }

  lemma HundredThousand(single: nat, most: nat)
    requires single == Pow2(1067) && most == Pow2(1079)
    ensures Value(SINGLE, 0x47C3_5000) == Number(false, 12_800_000 * single)
    ensures 12_800_000 * single >= 0x800 * most
  {
    hide Pow2;
    SmallPowers();
    Pow2Adds(12, 1067);
    assert most == 0x1000 * single;
  }
}
