/** The IEEE 754 double arithmetic behind the containers' growth factors:
    a size converted to `double`, multiplied by a `double` constant with
    rounding to nearest, and truncated back to `std::size_t`. Only
    non-negative integers in the normal range are modelled. */
module Doubles {

  /** The number of significant bits of a 64-bit double. */
  const Precision: nat := 53

  function Pow2(k: nat): (r: nat)
    ensures r >= 1
  {
    if k == 0 then 1 else 2 * Pow2(k - 1)
  }

  lemma {:induction false} Pow2Add(a: nat, b: nat)
    ensures Pow2(a + b) == Pow2(a) * Pow2(b)
    decreases b
  {
    if b > 0 {
      Pow2Add(a, b - 1);
      assert Pow2(a + b) == 2 * Pow2(a + b - 1);
    }
  }

  /** The number of binary digits of `x`, 0 for 0. */
  function BitLength(x: nat): (r: nat)
    ensures x < Pow2(r)
    ensures x > 0 ==> r >= 1 && Pow2(r - 1) <= x
    decreases x
  {
    if x == 0 then 0 else 1 + BitLength(x / 2)
  }

  /** `x` rounded to the nearest integer a double holds: the value itself
      when it has at most 53 binary digits, otherwise the nearest multiple
      of the unit in the last place, ties going to the even significand.
      The rounding loses less than a sixteenth of the value. */
  function ToDouble(x: nat): (r: nat)
    ensures BitLength(x) <= Precision ==> r == x
    ensures r * 16 >= x * 15
  {
    var length := BitLength(x);
    if length <= Precision then x
    else
      var unit := Pow2(length - Precision);
      var q, rem := x / unit, x % unit;
      UnitSmall(x, length);
      if rem > unit / 2 || (rem == unit / 2 && q % 2 == 1) then (q + 1) * unit else q * unit
  }

  /** Beyond 53 digits, sixteen units in the last place stay within `x`,
      and rounding down or up stays within one unit of `x`. */
  lemma UnitSmall(x: nat, length: nat)
    requires length == BitLength(x) && length > Precision
    ensures Pow2(length - Precision) * 16 <= x
    ensures x / Pow2(length - Precision) * Pow2(length - Precision) * 16 >= x * 15
    ensures (x / Pow2(length - Precision) + 1) * Pow2(length - Precision) >= x
  {
    var unit := Pow2(length - Precision);
    var big := Pow2(length - Precision + 4);
    Pow2Add(length - Precision, 4);
    assert Pow2(4) == 16;
    assert unit * 16 == big;
    Pow2Add(length - Precision + 4, Precision - 5);
    var rest := Pow2(Precision - 5);
    assert Pow2(length - 1) == big * rest;
    MulAtLeastOne(big, rest);
    var q, rem := x / unit, x % unit;
    DivMod(x, unit);
    MulSucc(q, unit);
  }

  lemma MulAtLeastOne(a: nat, b: nat)
    requires b >= 1
    ensures a * b >= a
  {
  }

  lemma MulSucc(q: nat, u: nat)
    ensures (q + 1) * u == q * u + u
  {
  }

  lemma DivMod(x: nat, d: nat)
    requires d > 0
    ensures x == x / d * d + x % d && x % d < d
  {
  }

  /** The significand of the double that stands for 1.4: the constant is
      stored as 6305039478318694 / 2^52, a little under 1.4. */
  const OnePointFour: nat := 6305039478318694

  /** 2^52, the scale of OnePointFour. */
  const Scale: nat := 4503599627370496

  /** `static_cast<std::size_t>(count * 1.4)`: `count` converted to double,
      multiplied by the double 1.4 and rounded, then truncated. The result
      is never below `count`. */
  function TimesOnePointFour(count: nat): (r: nat)
    ensures r >= count
  {
    var n := ToDouble(count);
    var p := ToDouble(n * OnePointFour);
    assert p * 256 >= count * 225 * OnePointFour;
    p / Scale
  }

  /** The model follows the double arithmetic rather than exact decimals:
      45 * 1.4 is 63 in decimals but 62 as the source computes it, and
      5 * 1.4, whose exact product lies just under 7, rounds to 7. */
  lemma TimesOnePointFourRounding()
    ensures TimesOnePointFour(45) == 62 && 45 * 14 / 10 == 63
    ensures TimesOnePointFour(5) == 7
  {
    Pow2Values();
    assert ToDouble(45) == 45 && ToDouble(5) == 5;
    var big := 45 * OnePointFour;
    BitLengthOf(big, 58);
    assert ToDouble(big) == big / 32 * 32;
    var small := 5 * OnePointFour;
    BitLengthOf(small, 55);
    assert ToDouble(small) == (small / 4 + 1) * 4;
  }

  lemma Pow2Values()
    ensures Pow2(2) == 4 && Pow2(5) == 32
    ensures Pow2(54) == 18014398509481984 && Pow2(55) == 36028797018963968
    ensures Pow2(57) == 144115188075855872 && Pow2(58) == 288230376151711744
  {
    assert Pow2(5) == 32 && Pow2(4) == 16 && Pow2(7) == 128 && Pow2(8) == 256;
    Pow2Add(5, 5);
    Pow2Add(10, 10);
    Pow2Add(20, 20);
    Pow2Add(40, 10);
    Pow2Add(50, 4);
    Pow2Add(50, 5);
    Pow2Add(50, 7);
    Pow2Add(50, 8);
  }

  /** A value at least 2^(k-1) and below 2^k has k binary digits. */
  lemma {:induction false} BitLengthOf(x: nat, k: nat)
    requires k >= 1 && Pow2(k - 1) <= x < Pow2(k)
    ensures BitLength(x) == k
    decreases k
  {
    if k > 1 {
      BitLengthOf(x / 2, k - 1);
    }
  }
}
