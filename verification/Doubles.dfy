/**
  Double precision numbers: 53 binary digits, and none below 2 to the -1074.  A
  double is the real number it stands for; a zero has no sign.
*/
module Doubles {

  datatype Double = Finite(x: real) | PlusInfinity | MinusInfinity | NaN

  const MANTISSA: int := 0x20_0000_0000_0000

  function Abs(x: real): (r: real)
    ensures r >= 0.0
  {
    if x < 0.0 then -x else x
  }

  function Pow2(n: nat): (r: real)
    ensures r >= 1.0
  {
    if n == 0 then 1.0 else 2.0 * Pow2(n - 1)
  }

  /** The distance of doubles from 2 to the 53 on. */
  function UlpAbove(m: real): (u: real)
    requires m >= 0.0
    ensures u >= 1.0 && (m >= 1.0 ==> u <= m)
    decreases m.Floor
  {
    if m < MANTISSA as real then 1.0
    else
      assert (m / 2.0).Floor < m.Floor;
      2.0 * UlpAbove(m / 2.0)
  }

  /** The distance of doubles below 2 to the 53, and at least 2 to the -`k`. */
  function UlpBelow(m: real, k: nat): (u: real)
    requires m >= 0.0
    ensures 0.0 < u <= 1.0
    decreases k
  {
    if 2.0 * m >= MANTISSA as real || k == 0 then 1.0 else UlpBelow(2.0 * m, k - 1) / 2.0
  }

  function Ulp(m: real): (u: real)
    requires m >= 0.0
    ensures u > 0.0
  {
    if m < MANTISSA as real then UlpBelow(m, 1074) else UlpAbove(m)
  }

  /** The nearest whole number, the even one on a tie. */
  function NearestInt(x: real): (n: int)
    ensures Abs(x - n as real) <= 0.5
  {
    var q := x.Floor;
    var r := x - q as real;
    if r < 0.5 || (r == 0.5 && q % 2 == 0) then q else q + 1
  }

  /** The nearest double, as if there were no largest. */
  function Rounded(x: real): (r: real) {
    var u := Ulp(Abs(x));
    NearestInt(x / u) as real * u
  }

  predicate Overflows(x: real) {
    Abs(Rounded(x)) >= Pow2(1024)
  }

  predicate Underflows(x: real) {
    x != 0.0 && Rounded(x) == 0.0
  }

  // ------------------------------------------------------------------ whole numbers

  lemma NearestIsWhole(n: int)
    ensures NearestInt(n as real) == n
  {
  }

  lemma NearestOfNegative(x: real)
    ensures NearestInt(-x) == -NearestInt(x)
  {
    assert (-x).Floor == if x == x.Floor as real then -x.Floor else -x.Floor - 1;
  }

  lemma NearestWithin(x: real, n: int)
    requires Abs(x - n as real) < 0.5
    ensures NearestInt(x) == n
  {
  }

  /** A whole number of units is a double. */
  lemma Multiple(x: real, q: int)
    requires x == q as real * Ulp(Abs(x))
    ensures Rounded(x) == x
  {
    hide Ulp, NearestInt, Abs;
    var u := Ulp(Abs(x));
    assert x / u == q as real;
    NearestIsWhole(q);
  }

  lemma {:induction false} UnitDivides(m: real, k: nat, n: int) returns (q: int)
    requires m >= 0.0
    ensures n as real == q as real * UlpBelow(m, k)
    decreases k
  {
    if 2.0 * m >= MANTISSA as real || k == 0 {
      q := n;
    } else {
      q := UnitDivides(2.0 * m, k - 1, 2 * n);
      var u := UlpBelow(2.0 * m, k - 1);
      assert (2 * n) as real == q as real * u;
      assert q as real * (u / 2.0) == (q as real * u) / 2.0;
    }
  }

  /** Whole numbers up to 2 to the 53 are doubles. */
  lemma WholeExact(n: int)
    requires -MANTISSA <= n <= MANTISSA
    ensures Rounded(n as real) == n as real
  {
    hide Rounded, UlpBelow, UlpAbove;
    var m := Abs(n as real);
    if m < MANTISSA as real {
      var q := UnitDivides(m, 1074, n);
      Multiple(n as real, q);
    } else {
      UnitAtMantissa();
      Multiple(n as real, n / 2);
    }
  }

  lemma UnitAtMantissa()
    ensures Ulp(MANTISSA as real) == 2.0
  {
    assert UlpAbove(MANTISSA as real / 2.0) == 1.0;
  }

  /** The whole number behind is not: it is halfway to the next double, and the even one is below. */
  lemma FirstInexact()
    ensures Rounded((MANTISSA + 1) as real) == MANTISSA as real
  {
    var m := (MANTISSA + 1) as real;
    assert UlpAbove(m / 2.0) == 1.0;
    assert Ulp(Abs(m)) == 2.0;
    assert m / 2.0 == (MANTISSA / 2) as real + 0.5;
    assert NearestInt(m / 2.0) == MANTISSA / 2;
  }

  // ------------------------------------------------------------------ sizes

  lemma {:induction false} Pow2More(n: nat, k: nat)
    requires n <= k
    ensures Pow2(n) <= Pow2(k)
    decreases k
  {
    if n < k { Pow2More(n, k - 1); }
  }

  lemma {:induction false} UnitSmall(m: real, k: nat)
    requires 0.0 <= m < MANTISSA as real && m * Pow2(k) >= 1.0
    ensures UlpBelow(m, k) <= m
    decreases k
  {
    if 2.0 * m < MANTISSA as real && k > 0 {
      assert 2.0 * m * Pow2(k - 1) == m * Pow2(k);
      UnitSmall(2.0 * m, k - 1);
    }
  }

  /** From a millionth on a number is at least the distance of doubles around it. */
  lemma UnitFits(m: real)
    requires m >= 0.000001
    ensures Ulp(m) <= m
  {
    hide Pow2, UlpBelow, UlpAbove;
    if m < MANTISSA as real {
      assert Pow2(20) >= 1000000.0 by { Pow2Of20(); }
      Pow2More(20, 1074);
      assert m * Pow2(1074) >= 0.000001 * Pow2(1074);
      UnitSmall(m, 1074);
    }
  }

  lemma Pow2Of20()
    ensures Pow2(20) == 1048576.0
  {
    assert Pow2(4) == 16.0;
    assert Pow2(8) == 256.0;
    assert Pow2(12) == 4096.0;
    assert Pow2(16) == 65536.0;
  }

  /** Rounding keeps a number apart from zero and within twice itself. */
  lemma RoundedSize(x: real)
    requires Abs(x) >= 0.000001
    ensures Rounded(x) != 0.0 && Abs(Rounded(x)) <= 2.0 * Abs(x)
  {
    hide Ulp, NearestInt;
    var u := Ulp(Abs(x));
    UnitFits(Abs(x));
    RatioAtLeast(x, u);
    NearestSize(x / u);
    TimesUnit(NearestInt(x / u) as real, x / u, u);
  }

  lemma RatioAtLeast(x: real, u: real)
    requires Abs(x) >= u > 0.0
    ensures Abs(x / u) >= 1.0 && x / u * u == x
  {
    var y := x / u;
    assert y * u == x;
    AbsTimes(y, u);
    assert Abs(y) * u == Abs(x);
    BelowOne(Abs(y), u);
  }

  lemma BelowOne(y: real, u: real)
    requires u > 0.0
    ensures y < 1.0 ==> y * u < u
  {
    assert y < 1.0 ==> (1.0 - y) * u > 0.0;
  }

  lemma NearestSize(y: real)
    requires Abs(y) >= 1.0
    ensures NearestInt(y) != 0 && Abs(NearestInt(y) as real) <= 2.0 * Abs(y)
  {
  }

  lemma AbsTimes(y: real, u: real)
    requires u > 0.0
    ensures Abs(y * u) == Abs(y) * u
  {
    if y < 0.0 {
      assert y * u < 0.0;
    } else {
      assert y * u >= 0.0;
    }
  }

  lemma TimesUnit(n: real, y: real, u: real)
    requires u > 0.0 && n != 0.0 && Abs(n) <= 2.0 * Abs(y)
    ensures n * u != 0.0 && Abs(n * u) <= 2.0 * Abs(y * u)
  {
    AbsTimes(n, u);
    AbsTimes(y, u);
    var a, b := Abs(n), 2.0 * Abs(y);
    assert a * u <= b * u;
    assert a > 0.0;
    assert a * u > 0.0;
  }

  lemma ZeroStays()
    ensures Rounded(0.0) == 0.0
  {
    hide UlpBelow, UlpAbove;
    assert NearestInt(0.0) == 0;
  }

  /** Numbers of the size of 64-bit integers with six decimals are in the range of doubles. */
  lemma InRange(x: real)
    requires (x == 0.0 || Abs(x) >= 0.000001) && Abs(x) <= 9300000000000000000.0
    ensures !Overflows(x) && !Underflows(x)
  {
    hide Rounded, Pow2;
    Pow2Of20();
    Pow2Sum(20, 20);
    Pow2Sum(40, 40);
    Pow2More(80, 1024);
    if x == 0.0 { ZeroStays(); } else { RoundedSize(x); }
  }

  lemma {:induction false} Pow2Sum(n: nat, k: nat)
    ensures Pow2(n + k) == Pow2(n) * Pow2(k)
    decreases k
  {
    if k > 0 {
      Pow2Sum(n, k - 1);
      assert Pow2(n) * (2.0 * Pow2(k - 1)) == 2.0 * (Pow2(n) * Pow2(k - 1));
    }
  }

  // ------------------------------------------------------------------ six decimals

  lemma {:induction false} UnitBound(m: real, k: nat, j: nat)
    requires 0.0 <= m && j <= k && m * Pow2(j) < MANTISSA as real
    ensures UlpBelow(m, k) * Pow2(j) <= 1.0
    decreases j
  {
    if j > 0 {
      assert m * Pow2(j) == 2.0 * m * Pow2(j - 1);
      assert 2.0 * m * Pow2(j - 1) >= 2.0 * m;
      UnitBound(2.0 * m, k - 1, j - 1);
      assert UlpBelow(2.0 * m, k - 1) / 2.0 * Pow2(j) == UlpBelow(2.0 * m, k - 1) * Pow2(j - 1);
    }
  }

  /** Rounding moves a number by at most half the distance of doubles. */
  lemma RoundedNear(x: real)
    ensures Abs(Rounded(x) - x) <= Ulp(Abs(x)) / 2.0
  {
    hide Ulp, NearestInt;
    var u := Ulp(Abs(x));
    NearTimes(x / u, NearestInt(x / u) as real, u);
    assert x / u * u == x;
  }

  lemma NearTimes(y: real, n: real, u: real)
    requires u > 0.0 && Abs(y - n) <= 0.5
    ensures Abs(n * u - y * u) <= u / 2.0
  {
    HalfTimes(n - y, u);
    DifferenceTimes(n, y, u);
  }

  lemma DifferenceTimes(n: real, y: real, u: real)
    ensures (n - y) * u == n * u - y * u
  {
  }

  lemma HalfTimes(a: real, u: real)
    requires u > 0.0 && -0.5 <= a <= 0.5
    ensures Abs(a * u) <= u / 2.0
  {
    AtMostHalf(a, u);
    AtMostHalf(-a, u);
    assert -a * u == -(a * u);
  }

  lemma AtMostHalf(a: real, u: real)
    requires u > 0.0 && a <= 0.5
    ensures a * u <= u / 2.0
  {
    assert (0.5 - a) * u >= 0.0;
    DifferenceTimes(0.5, a, u);
  }

  const MILLION: int := 1000000

  /** Below 2 to the 33 rounding moves a number by less than half a millionth. */
  lemma RoundedClose(x: real)
    requires Abs(x) < 8589934592.0
    ensures Abs(Rounded(x) - x) * MILLION as real < 0.5
  {
    hide Rounded, Pow2, UlpBelow;
    RoundedNear(x);
    Pow2Of20();
    UnitBound(Abs(x), 1074, 20);
  }

  /** So a number of millionths can be told from the double nearest to it. */
  lemma MillionthsKept(k: int)
    requires Abs(k as real / MILLION as real) < 8589934592.0
    ensures NearestInt(Rounded(k as real / MILLION as real) * MILLION as real) == k
  {
    hide Rounded, NearestInt;
    var x := k as real / MILLION as real;
    RoundedClose(x);
    AbsTimes(Rounded(x) - x, MILLION as real);
    assert (Rounded(x) - x) * MILLION as real == Rounded(x) * MILLION as real - k as real;
    NearestWithin(Rounded(x) * MILLION as real, k);
  }
}
