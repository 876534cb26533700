/** 64-bit integers converted to the nearest 64-bit floats, on bit patterns. */
module IntegerFloats {
  const U64 := 0x1_0000_0000_0000_0000
  const I63 := 0x8000_0000_0000_0000
  const TWO52 := 0x10_0000_0000_0000

  function Pow2(k: nat): (p: nat)
    ensures p > 0
  {
    if k == 0 then 1 else 2 * Pow2(k - 1)
  }

  function Exponent(m: nat): (e: nat)
    requires m > 0
    ensures Pow2(e) <= m < 2 * Pow2(e)
  {
    if m == 1 then 0 else 1 + Exponent(m / 2)
  }

  /** The quotient rounded to nearest, ties to even. */
  function RoundEven(m: nat, d: nat): nat
    requires d > 0
  {
    if 2 * (m % d) < d || (2 * (m % d) == d && m / d % 2 == 0) then m / d else m / d + 1
  }

  /** The 53-bit significand of a positive integer; rounding may carry it to 2 to the 53. */
  function Significand(m: nat): nat
    requires m > 0
  {
    var e := Exponent(m);
    if e <= 52 then m * Pow2(52 - e) else RoundEven(m, Pow2(e - 52))
  }

  /** The bits of the 64-bit float nearest to an integer: sign, biased exponent and
      fraction, a carry of the significand running into the exponent. */
  function MagnitudeBits(m: nat): nat {
    if m == 0 then 0 else (1022 + Exponent(m)) * TWO52 + Significand(m)
  }

  function IntegerBits(n: int): nat {
    if n < 0 then I63 + MagnitudeBits(-n) else MagnitudeBits(n)
  }

  lemma {:induction false} PowAdds(a: nat, b: nat)
    ensures Pow2(a + b) == Pow2(a) * Pow2(b)
  {
    if a > 0 {
      PowAdds(a - 1, b);
      assert 2 * Pow2(a - 1) * Pow2(b) == 2 * (Pow2(a - 1) * Pow2(b));
    }
  }

  lemma {:induction false} PowGrows(a: nat, b: nat)
    requires a <= b
    ensures Pow2(a) <= Pow2(b)
  {
    if a < b {
      PowGrows(a, b - 1);
    }
  }

  lemma Powers()
    ensures Pow2(52) == TWO52 && Pow2(53) == 2 * TWO52 && Pow2(64) == U64
  {
    assert Pow2(4) == 16 && Pow2(1) == 2;
    PowAdds(4, 4);
    PowAdds(8, 8);
    PowAdds(16, 16);
    PowAdds(32, 16);
    PowAdds(48, 4);
    PowAdds(52, 1);
    PowAdds(48, 16);
  }

  lemma TimesOrder(a: nat, b: nat, d: nat)
    ensures a < b ==> a * d + d <= b * d
    ensures a <= b ==> a * d <= b * d
  {
    if a < b {
      var k: nat := b - a - 1;
      assert b == a + 1 + k;
      assert (a + 1 + k) * d == a * d + d + k * d;
    }
  }

  lemma DivideAt(m: nat, d: nat, q: nat)
    requires d > 0 && q * d <= m < q * d + d
    ensures m / d == q && m % d == m - q * d
  {
    TimesOrder(m / d, q, d);
    TimesOrder(q, m / d, d);
  }

  /** Rounding is off by at most half a unit. */
  lemma RoundEvenNearest(m: nat, d: nat)
    requires d > 0
    ensures m <= RoundEven(m, d) * d ==> 2 * (RoundEven(m, d) * d - m) <= d
    ensures RoundEven(m, d) * d <= m ==> 2 * (m - RoundEven(m, d) * d) <= d
  {
    assert m == m / d * d + m % d;
    assert (m / d + 1) * d == m / d * d + d;
  }

  lemma QuotientMonotone(m: nat, m': nat, d: nat)
    requires d > 0 && m <= m'
    ensures m / d <= m' / d
  {
    TimesOrder(m' / d, m / d, d);
  }

  lemma RoundEvenMonotone(m: nat, m': nat, d: nat)
    requires d > 0 && m <= m'
    ensures RoundEven(m, d) <= RoundEven(m', d)
  {
    QuotientMonotone(m, m', d);
    if m / d == m' / d {
      assert m == m / d * d + m % d && m' == m' / d * d + m' % d;
    }
  }

  /** Scaling a number from one power of two to another scales its bounds. */
  lemma Scaled(m: nat, lo: nat, k: nat)
    requires lo <= m < 2 * lo
    ensures lo * k <= m * k && (k > 0 ==> m * k < 2 * (lo * k))
  {
    TimesOrder(lo, m, k);
    TimesOrder(m, 2 * lo, k);
    assert 2 * lo * k == 2 * (lo * k);
  }

  lemma RoundedRange(m: nat, q: nat, d: nat)
    requires d > 0 && q * d <= m < 2 * (q * d)
    ensures q <= RoundEven(m, d) <= 2 * q
  {
    DivideAt(q * d, d, q);
    QuotientMonotone(q * d, m, d);
    assert 2 * q * d == 2 * (q * d);
    TimesOrder(2 * q, m / d, d);
    if m / d == 2 * q {
      assert false;
    }
  }

  lemma SignificandRange(m: nat)
    requires m > 0
    ensures TWO52 <= Significand(m) <= 2 * TWO52
    ensures Exponent(m) <= 52 ==> Significand(m) == m * Pow2(52 - Exponent(m)) && Significand(m) < 2 * TWO52
  {
    hide Pow2, RoundEven;
    var e := Exponent(m);
    Powers();
    if e <= 52 {
      PowAdds(e, 52 - e);
      Scaled(m, Pow2(e), Pow2(52 - e));
    } else {
      PowAdds(52, e - 52);
      RoundedRange(m, TWO52, Pow2(e - 52));
    }
  }

  /** Significand times 2 to the exponent, over 2 to the 52, is within half a unit of the
      last place of the integer. */
  lemma NearestFloat(m: nat)
    requires m > 0
    ensures var p: int := Pow2(Exponent(m));
            -p <= 2 * (Significand(m) * p - m * TWO52) <= p
  {
    hide Pow2, RoundEven;
    var e := Exponent(m);
    Powers();
    if e <= 52 {
      PowAdds(52 - e, e);
      Associates(m, Pow2(52 - e), Pow2(e));
    } else {
      PowAdds(e - 52, 52);
      RoundEvenNearest(m, Pow2(e - 52));
      Associates(RoundEven(m, Pow2(e - 52)), Pow2(e - 52), TWO52);
    }
  }

  lemma Associates(a: nat, b: nat, c: nat)
    ensures a * b * c == a * (b * c)
  {
  }

  lemma ExponentMonotone(m: nat, m': nat)
    requires 0 < m <= m'
    ensures Exponent(m) <= Exponent(m')
  {
    if Exponent(m') < Exponent(m) {
      PowGrows(Exponent(m') + 1, Exponent(m));
    }
  }

  lemma MagnitudeMonotone(m: nat, m': nat)
    requires m <= m'
    ensures MagnitudeBits(m) <= MagnitudeBits(m')
  {
    if m > 0 {
      hide Significand;
      SignificandRange(m);
      SignificandRange(m');
      ExponentMonotone(m, m');
      if Exponent(m) == Exponent(m') {
        SignificandMonotone(m, m');
      }
    }
  }

  lemma SignificandMonotone(m: nat, m': nat)
    requires 0 < m <= m' && Exponent(m) == Exponent(m')
    ensures Significand(m) <= Significand(m')
  {
    var e := Exponent(m);
    if e <= 52 {
      TimesOrder(m, m', Pow2(52 - e));
    } else {
      RoundEvenMonotone(m, m', Pow2(e - 52));
    }
  }

  lemma MagnitudeBelow(m: nat)
    requires m < U64
    ensures MagnitudeBits(m) < I63
  {
    if m > 0 {
      hide Significand;
      SignificandRange(m);
      Powers();
      if Exponent(m) >= 64 {
        PowGrows(64, Exponent(m));
      }
    }
  }

  /** Up to 2 to the 53 distinct integers are distinct floats. */
  lemma SmallIntegersDiffer(m: nat, m': nat)
    requires m < m' <= 2 * TWO52
    ensures MagnitudeBits(m) < MagnitudeBits(m')
  {
    hide Significand;
    SignificandRange(m');
    if m > 0 {
      SmallExponent(m);
      SignificandRange(m);
      ExponentMonotone(m, m');
      if Exponent(m) == Exponent(m') {
        TimesOrder(m, m', Pow2(52 - Exponent(m)));
      }
    }
  }

  lemma SmallExponent(m: nat)
    requires 0 < m < 2 * TWO52
    ensures Exponent(m) <= 52
  {
    Powers();
    if Exponent(m) > 52 {
      PowGrows(53, Exponent(m));
    }
  }

  /** The totalOrder predicate of section 5.10 of IEEE 754-2008, on bit patterns. */
  predicate TotalOrder(a: nat, b: nat) {
    if a >= I63 then b < I63 || a >= b else b < I63 && a <= b
  }

  /** Integers in a float field keep their order, and up to 2 to the 53 their difference. */
  lemma IntegersAsFloats(n: int, m: int)
    requires -I63 <= n <= m < U64
    ensures TotalOrder(IntegerBits(n), IntegerBits(m))
    ensures -2 * TWO52 <= n < m <= 2 * TWO52 ==> IntegerBits(n) != IntegerBits(m)
  {
    hide MagnitudeBits;
    MagnitudeBelow(if n < 0 then -n else n);
    MagnitudeBelow(if m < 0 then -m else m);
    if m < 0 {
      MagnitudeMonotone(-m, -n);
      if -2 * TWO52 <= n < m {
        SmallIntegersDiffer(-m, -n);
      }
    } else if n >= 0 {
      MagnitudeMonotone(n, m);
      if n < m <= 2 * TWO52 {
        SmallIntegersDiffer(n, m);
      }
    }
  }

  /** Beyond that two integers can be one float. */
  lemma OddIsRounded()
    ensures IntegerBits(2 * TWO52) == IntegerBits(2 * TWO52 + 1)
  {
    Powers();
    ExponentIs(2 * TWO52, 53);
    ExponentIs(2 * TWO52 + 1, 53);
    assert Pow2(1) == 2;
    DivideAt(2 * TWO52, 2, TWO52);
    DivideAt(2 * TWO52 + 1, 2, TWO52);
  }

  lemma {:induction false} ExponentIs(m: nat, e: nat)
    requires m > 0 && Pow2(e) <= m < 2 * Pow2(e)
    ensures Exponent(m) == e
  {
    if Exponent(m) < e {
      PowGrows(Exponent(m) + 1, e);
    } else if e < Exponent(m) {
      PowGrows(e + 1, Exponent(m));
    }
  }
}
