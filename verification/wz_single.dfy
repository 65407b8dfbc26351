/** What the one-byte form of single-precision numbers is for: the numbers `WholeOf` finds are the whole
    numbers of IEEE 754 from -127 to 127, and `BitsOf` gives the number a byte stands for. */
module WzSingles {
  import opened Basics
  import opened Bytes
  import opened WzPrimitives

  /** A 32-bit number in the sense of IEEE 754: sign, and significand times a power of two; it is the
      whole number `n` if the significand times 2^exponent is |n| times 2^150. */
  predicate IsWhole(bits: nat, n: int) {
    var exponent, fraction := bits / 0x80_0000 % 0x100, bits % 0x80_0000;
    var significand := if exponent == 0 then fraction else 0x80_0000 + fraction;
    && exponent != 255
    && (n < 0 ==> bits >= TWO31) && (n > 0 ==> bits < TWO31)
    && significand * Power2(if exponent == 0 then 1 else exponent) == (if n < 0 then -n else n) * Power2(150)
  }

  lemma {:induction false} Power2Grows(a: nat, b: nat)
    requires a <= b
    ensures Power2(a) <= Power2(b)
  {
    if a < b { Power2Grows(a, b - 1); }
  }

  lemma Doubled2(n: nat)
    ensures Power2(n + 1) == 2 * Power2(n)
  {}

  lemma SmallPowers()
    ensures Power2(16) == 0x1_0000 && Power2(23) == 0x80_0000
  {
    ByteBits();
    hide Power2;
    Power2Adds(8, 8);
    Power2Adds(8, 7);
    Doubled2(7);
    Power2Adds(16, 7);
  }

  /** For the exponents that matter: 2^exponent times the weight of the last place before the point. */
  lemma OneInIs(exponent: nat)
    requires 127 <= exponent <= 133
    ensures Power2(exponent) * OneIn(exponent) == 0x80_0000 * Power2(127)
  {
    hide Power2;
    var p := Power2(127);
    Doubled2(127);
    Doubled2(128);
    Doubled2(129);
    Doubled2(130);
    Doubled2(131);
    Doubled2(132);
  }

  lemma TopIs()
    ensures Power2(150) == 0x80_0000 * Power2(127)
  {
    hide Power2;
    SmallPowers();
    Power2Adds(127, 23);
  }

  lemma Cancel(a: nat, b: nat, p: nat)
    requires p > 0
    ensures a * p == b * p <==> a == b
  {
    if a < b {
      Times(a, b, p);
    } else {
      Times(b, a, p);
    }
  }

  lemma Scaled(significand: nat, power: nat, one: nat, m: nat, p: nat)
    requires one > 0 && p > 0 && power * one == 0x80_0000 * p && power > 0
    ensures significand * power == m * (0x80_0000 * p) <==> significand == m * one
  {
    Cancel(significand, m * one, power);
    assert m * one * power == m * (power * one);
  }

  /** Magnitudes by exponent. */
  lemma MagnitudeIs(exponent: nat, significand: nat, m: nat)
    requires 127 <= exponent <= 133
    ensures significand * Power2(exponent) == m * Power2(150) <==> significand == m * OneIn(exponent)
  {
    hide Power2, OneIn;
    OneInIs(exponent);
    TopIs();
    Scaled(significand, Power2(exponent), OneIn(exponent), m, Power2(127));
  }

  lemma SmallIsZero(exponent: nat, significand: nat, m: nat)
    requires exponent < 127 && significand < 0x100_0000
    ensures significand * Power2(exponent) == m * Power2(150) <==> significand == 0 && m == 0
  {
    hide Power2;
    TopIs();
    Power2Grows(exponent, 126);
    Doubled2(126);
    Below(significand, Power2(exponent), Power2(126), m);
  }

  lemma Below(significand: nat, power: nat, half: nat, m: nat)
    requires significand < 0x100_0000 && 0 < power <= half
    ensures significand * power == m * (0x80_0000 * (2 * half)) <==> significand == 0 && m == 0
  {
    var one := 0x80_0000 * (2 * half);
    Times(0, significand, power);
    Times(power, half, significand);
    Times(significand, 0x100_0000, half);
    if m > 0 { Times(1, m, one); }
  }

  lemma LargeIsLarge(exponent: nat, significand: nat, m: nat)
    requires exponent >= 134 && significand >= 0x80_0000
    ensures significand * Power2(exponent) == m * Power2(150) ==> m >= 128
  {
    hide Power2;
    TopIs();
    var top := 134;
    Power2Grows(top, exponent);
    Top134(top);
    if m < 128 { Above(significand, Power2(exponent), Power2(127), m); }
  }

  lemma Above(significand: nat, power: nat, p: nat, m: nat)
    requires significand >= 0x80_0000 && power >= 128 * p && p > 0 && m < 128
    ensures significand * power > m * (0x80_0000 * p)
  {
    Times(0x80_0000, significand, power);
    Times(m, 128, 0x80_0000 * p);
  }

  lemma WholeByMagnitude(bits: nat, exponent: nat, significand: nat, n: int, m: nat)
    requires bits < TWO32 && -127 <= n <= 127 && m == if n < 0 then -n else n
    requires exponent == bits / 0x80_0000 % 0x100 && significand == 0x80_0000 + bits % 0x80_0000 && 127 <= exponent <= 133
    ensures WholeOf(bits) == Some(n) <==>
      significand == m * OneIn(exponent) && (n < 0 ==> bits >= TWO31) && (n > 0 ==> bits < TWO31)
  {
    hide OneIn;
    var one := OneIn(exponent);
    if significand == m * one {
      QuotientIs(significand, one, m, 0);
    }
    if significand % one == 0 {
      assert significand == significand / one * one;
      if significand / one == m { assert significand == m * one; }
    }
  }

  lemma WholeOfMiddle(bits: nat, n: int)
    requires bits < TWO32 && 127 <= bits / 0x80_0000 % 0x100 <= 133
    ensures WholeOf(bits) == Some(n) <==> -127 <= n <= 127 && IsWhole(bits, n)
  {
    hide Power2, OneIn;
    var exponent, significand, m := bits / 0x80_0000 % 0x100, 0x80_0000 + bits % 0x80_0000, if n < 0 then -n else n;
    if -127 <= n <= 127 { WholeByMagnitude(bits, exponent, significand, n, m); }
    hide WholeOf;
    MagnitudeIs(exponent, significand, m);
  }

  lemma WholeOfOthers(bits: nat, n: int)
    requires bits < TWO32 && !(127 <= bits / 0x80_0000 % 0x100 <= 133)
    ensures WholeOf(bits) == Some(n) <==> -127 <= n <= 127 && IsWhole(bits, n)
  {
    hide Power2, OneIn;
    var exponent, fraction, m := bits / 0x80_0000 % 0x100, bits % 0x80_0000, if n < 0 then -n else n;
    if exponent == 0 {
      SmallIsZero(1, fraction, m);
    } else if exponent < 127 {
      SmallIsZero(exponent, 0x80_0000 + fraction, m);
    } else {
      LargeIsLarge(exponent, 0x80_0000 + fraction, m);
    }
  }

  /** `WzSingleToByte`'s test finds exactly the whole numbers from -127 to 127; both zeros are 0. */
  lemma WholeOfIs(bits: nat, n: int)
    requires bits < TWO32
    ensures WholeOf(bits) == Some(n) <==> -127 <= n <= 127 && IsWhole(bits, n)
  {
    hide WholeOf, IsWhole;
    if 127 <= bits / 0x80_0000 % 0x100 <= 133 {
      WholeOfMiddle(bits, n);
    } else {
      WholeOfOthers(bits, n);
    }
  }

  lemma Top134(exponent: nat)
    requires exponent == 134
    ensures Power2(exponent) == 128 * Power2(127)
  {
    hide Power2;
    Power2Adds(127, 7);
    ByteBits();
    Doubled2(7);
  }

  lemma OneIn134(exponent: nat)
    requires exponent == 134
    ensures OneIn(exponent) == 0x1_0000
  {}

  lemma Times128(power: nat, one: nat, p: nat)
    requires power == 128 * p && one == 0x1_0000
    ensures power * one == 0x80_0000 * p
  {}

  lemma LargestIs(significand: nat, m: nat, exponent: nat)
    requires exponent == 134
    ensures significand * Power2(exponent) == m * Power2(150) <==> significand == m * OneIn(exponent)
  {
    hide *;
    TopIs();
    Top134(exponent);
    OneIn134(exponent);
    var p, power, one := Power2(127), Power2(exponent), OneIn(exponent);
    assert power * one == 0x80_0000 * p by { Times128(power, one, p); }
    Scaled(significand, power, one, m, p);
  }

  lemma BitsShape(n: nat) returns (exponent: nat)
    requires 0 < n < 256
    ensures 127 <= exponent <= 134 && (exponent == 134 <==> n >= 128)
    ensures BitsOf(n) / 0x80_0000 % 0x100 == exponent && 0x80_0000 + BitsOf(n) % 0x80_0000 == n * OneIn(exponent)
    ensures BitsOf(n) < TWO31
  {
    exponent := BitsOf(n) / 0x80_0000;
  }

  /** A byte becomes the number it is. */
  lemma BitsOfIs(n: nat)
    requires n < 256
    ensures IsWhole(BitsOf(n), n)
  {
    hide Power2, OneIn;
    if n == 0 {
      SmallIsZero(1, n, n);
    } else {
      var exponent := BitsShape(n);
      hide BitsOf;
      if n >= 128 {
        LargestIs(n * OneIn(exponent), n, exponent);
      } else {
        MagnitudeIs(exponent, n * OneIn(exponent), n);
      }
    }
  }
}
