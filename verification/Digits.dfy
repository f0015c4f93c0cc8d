/**
 How many decimal digits an integer type needs (BIT_DIGITS, TYPE_DIGITS and TYPE_CHARS in handy.h):
 146/485 stands in for the logarithm of 2.
 */
module DecimalDigits {

  function BitDigits(n: nat): nat {
    n * 146 / 485 + 1
  }

  /** For a type of `size` bytes: digits, a sign and NUL. */
  function TypeChars(size: nat): nat {
    BitDigits(size * 8) + 2
  }

  function Pow(b: nat, n: nat): nat {
    if n == 0 then 1 else b * Pow(b, n - 1)
  }

  /** The number in decimal, without leading zeros. */
  function Decimal(v: nat): string {
    if v < 10 then [Digit(v)] else Decimal(v / 10) + [Digit(v % 10)]
  }

  function Digit(d: nat): char
    requires d < 10
  {
    "0123456789"[d]
  }

  /** As sprintf writes it, NUL included. */
  function Printed(v: int): string {
    (if v < 0 then "-" + Decimal(-v) else Decimal(v)) + "\0"
  }

  // ---------------------------------------------------------------- reading a number

  predicate IsDecimal(t: string) {
    t != "" && (forall c :: c in t ==> '0' <= c <= '9') && (|t| > 1 ==> t[0] != '0')
  }

  function ReadDecimal(t: string): int {
    if t == "" then 0 else ReadDecimal(t[..|t| - 1]) * 10 + (t[|t| - 1] as int - '0' as int)
  }

  lemma DigitReads(d: nat)
    requires d < 10
    ensures '0' <= Digit(d) <= '9' && Digit(d) as nat == '0' as nat + d && (d > 0 ==> Digit(d) != '0')
  {
  }

  /** The decimal form of a number has no leading zeros and is read back as the number. */
  lemma {:induction false} DecimalReads(v: nat)
    ensures IsDecimal(Decimal(v)) && ReadDecimal(Decimal(v)) == v
    ensures v > 0 ==> Decimal(v)[0] != '0'
  {
    DigitReads(v % 10);
    if v < 10 {
      assert Decimal(v)[..0] == "";
      assert ReadDecimal("") == 0;
    } else {
      DecimalReads(v / 10);
      assert Decimal(v)[..|Decimal(v)| - 1] == Decimal(v / 10);
    }
  }

  /** A minus sign exactly for a negative number, its digits, and NUL. */
  lemma PrintedReads(v: int)
    ensures var t, n := Printed(v), |Printed(v)|;
            && n >= 2 && t[n - 1] == '\0'
            && if v < 0 then t[0] == '-' && IsDecimal(t[1..n - 1]) && ReadDecimal(t[1..n - 1]) == -v
               else IsDecimal(t[..n - 1]) && ReadDecimal(t[..n - 1]) == v
  {
    var t, n := Printed(v), |Printed(v)|;
    DecimalReads(if v < 0 then -v else v);
    if v < 0 {
      assert t[1..n - 1] == Decimal(-v);
    } else {
      assert t[..n - 1] == Decimal(v);
    }
  }

  // ---------------------------------------------------------------- powers

  lemma PowPositive(b: nat, n: nat)
    requires b > 0
    ensures Pow(b, n) > 0
  {
    if n > 0 {
      PowPositive(b, n - 1);
    }
  }

  lemma {:induction false} PowAdd(b: nat, m: nat, n: nat)
    ensures Pow(b, m + n) == Pow(b, m) * Pow(b, n)
  {
    if m > 0 {
      PowAdd(b, m - 1, n);
      Regroup(b, Pow(b, m - 1), Pow(b, n));
    }
  }

  lemma Regroup(a: int, b: int, c: int)
    ensures a * (b * c) == a * b * c
  {
  }

  lemma {:induction false} PowPow(b: nat, m: nat, n: nat)
    ensures Pow(Pow(b, m), n) == Pow(b, m * n)
  {
    if n > 0 {
      PowPow(b, m, n - 1);
      PowAdd(b, m, m * (n - 1));
      assert m + m * (n - 1) == m * n;
    }
  }

  lemma {:induction false} PowTimes(a: nat, b: nat, n: nat)
    ensures Pow(a * b, n) == Pow(a, n) * Pow(b, n)
  {
    if n > 0 {
      PowTimes(a, b, n - 1);
      var x, y := Pow(a, n - 1), Pow(b, n - 1);
      Interleave(a, b, x, y);
    }
  }

  lemma Interleave(a: int, b: int, x: int, y: int)
    ensures a * b * (x * y) == (a * x) * (b * y)
  {
    assert b * (x * y) == x * (b * y);
    assert a * b * (x * y) == a * (b * (x * y));
    assert (a * x) * (b * y) == a * (x * (b * y));
  }

  lemma TimesLe(a: nat, b: nat, c: nat, d: nat)
    requires a <= b && c <= d
    ensures a * c <= b * d
  {
    assert (b - a) * c >= 0 && b * (d - c) >= 0;
  }

  lemma {:induction false} PowLe(a: nat, b: nat, n: nat)
    requires a <= b
    ensures Pow(a, n) <= Pow(b, n)
  {
    if n > 0 {
      PowLe(a, b, n - 1);
      TimesLe(a, b, Pow(a, n - 1), Pow(b, n - 1));
    }
  }

  lemma {:induction false} PowMonotone(b: nat, m: nat, n: nat)
    requires b > 0 && m <= n
    ensures Pow(b, m) <= Pow(b, n)
  {
    PowAdd(b, m, n - m);
    PowPositive(b, n - m);
    TimesLe(Pow(b, m), Pow(b, m), 1, Pow(b, n - m));
  }

  /** Powers compare as their bases do. */
  lemma PowReflects(a: nat, b: nat, n: nat)
    requires Pow(a, n) < Pow(b, n)
    ensures a < b
  {
    if b <= a {
      PowLe(b, a, n);
    }
  }

  lemma RootsCompare(a: nat, k: nat, b: nat, n: nat, e: nat)
    requires Pow(a, e * k) < Pow(b, e * n)
    ensures Pow(a, k) < Pow(b, n)
  {
    PowPow(a, k, e);
    PowPow(b, n, e);
    assert k * e == e * k && n * e == e * n;
    PowReflects(Pow(a, k), Pow(b, n), e);
  }

  // ---------------------------------------------------------------- digits

  /** A number has at most k + 1 digits exactly when it is less than 10 to the k + 1. */
  lemma {:induction false} DigitsOf(v: nat, k: nat)
    ensures |Decimal(v)| <= k + 1 <==> v < Pow(10, k + 1)
    decreases v
  {
    assert Pow(10, k + 1) == 10 * Pow(10, k);
    PowPositive(10, k);
    if v < 10 {
    } else if k == 0 {
      assert Pow(10, 0) == 1;
      assert |Decimal(v / 10)| >= 1;
    } else {
      DigitsOf(v / 10, k - 1);
      assert v / 10 < Pow(10, k) <==> v < 10 * Pow(10, k);
    }
  }

  // ---------------------------------------------------------------- 146/485 is just above log 2

  lemma TwoTo485()
    ensures Pow(2, 485) == 2 *
      7067388259113537318333190002971674063309935587502475832486424805170479104 *
      7067388259113537318333190002971674063309935587502475832486424805170479104
  {
    TwoTo242();
    PowAdd(2, 242, 242);
    PowAdd(2, 1, 484);
    assert Pow(2, 1) == 2 * Pow(2, 0);
  }

  lemma TwoTo120()
    ensures Pow(2, 120) == 1329227995784915872903807060280344576
  {
    assert Pow(2, 15) == 32768;
    PowAdd(2, 15, 15);
    PowAdd(2, 30, 30);
    PowAdd(2, 60, 60);
  }

  lemma TwoTo242()
    ensures Pow(2, 242) == 7067388259113537318333190002971674063309935587502475832486424805170479104
  {
    TwoTo120();
    assert Pow(2, 1) == 2 * Pow(2, 0);
    PowAdd(2, 1, 120);
    PowAdd(2, 121, 121);
  }

  lemma TenTo146()
    ensures Pow(10, 146) ==
      10000000000000000000000000000000000000000000000000000000000000000000000000 *
      10000000000000000000000000000000000000000000000000000000000000000000000000
  {
    TenTo72();
    assert Pow(10, 1) == 10 * Pow(10, 0);
    PowAdd(10, 1, 72);
    PowAdd(10, 73, 73);
  }

  lemma TenTo72()
    ensures Pow(10, 72) == 1000000000000000000000000000000000000000000000000000000000000000000000000
  {
    assert Pow(10, 9) == 1000000000;
    PowAdd(10, 9, 9);
    PowAdd(10, 18, 18);
    PowAdd(10, 36, 36);
  }

  /** 2^485 < 10^146, but by less than one part in 900. */
  lemma Logarithm()
    ensures Pow(2, 485) < Pow(10, 146)
    ensures 900 * Pow(10, 146) <= 901 * Pow(2, 485)
  {
    TwoTo485();
    TenTo146();
  }

  /** Every value of n bits has at most BitDigits(n) digits. */
  lemma BitDigitsSuffice(n: nat, v: nat)
    requires v < Pow(2, n)
    ensures |Decimal(v)| <= BitDigits(n)
  {
    var k := n * 146 / 485;
    Logarithm();
    PowPow(2, 485, n);
    PowLe(Pow(2, 485), Pow(10, 146), n);
    PowPow(10, 146, n);
    assert 146 * n < 485 * (k + 1);
    PowMonotone(10, 146 * n + 1, 485 * (k + 1));
    PowPositive(10, 146 * n);
    assert Pow(10, 146 * n + 1) == 10 * Pow(10, 146 * n);
    RootsCompare(2, n, 10, k + 1, 485);
    DigitsOf(v, k);
  }

  /** The buffer for a printed integer of `size` bytes, signed or unsigned, is large enough. */
  lemma TypeCharsSuffice(size: nat, v: int)
    requires size > 0
    requires 0 - Pow(2, size * 8 - 1) as int <= v < Pow(2, size * 8)
    ensures |Printed(v)| <= TypeChars(size)
  {
    assert Pow(2, size * 8) == 2 * Pow(2, size * 8 - 1);
    PowPositive(2, size * 8 - 1);
    BitDigitsSuffice(size * 8, if v < 0 then -v else v);
  }

  // ---------------------------------------------------------------- no digit too many

  /** (1 + 1/m)^j <= 1 / (1 - j/m). */
  lemma {:induction false} SmallGrowth(m: nat, j: nat)
    requires j <= m
    ensures Pow(m + 1, j) * (m - j) <= Pow(m, j) * m
  {
    if j > 0 {
      SmallGrowth(m, j - 1);
      GrowthStep(m, j, Pow(m + 1, j - 1), Pow(m, j - 1));
    }
  }

  lemma GrowthStep(m: nat, j: nat, p: nat, q: nat)
    requires 0 < j <= m && p * (m - (j - 1)) <= q * m
    ensures (m + 1) * p * (m - j) <= m * q * m
  {
    var r := m - (j - 1);
    calc {
      (m + 1) * p * (m - j);
      p * ((m + 1) * (m - j));
    <= { assert (m + 1) * (m - j) <= m * r; TimesLe(p, p, (m + 1) * (m - j), m * r); }
      p * (m * r);
    == { Interleave(p, m, 1, r); }
      m * (p * r);
    <= { TimesLe(m, m, p * r, q * m); }
      m * (q * m);
      m * q * m;
    }
  }

  /** 10^(146 k) is less than twice 2^(485 k) for k up to 146. */
  lemma TenToMultiple(k: nat)
    requires k <= 146
    ensures Pow(10, 146 * k) < 2 * Pow(2, 485 * k)
  {
    Logarithm();
    var ten, two, a, b := Pow(10, 146), Pow(2, 485), Pow(900, k), Pow(901, k);
    PowLe(900 * ten, 901 * two, k);
    PowTimes(900, ten, k);
    PowTimes(901, two, k);
    PowPow(10, 146, k);
    PowPow(2, 485, k);
    SmallGrowth(900, k);
    PowPositive(900, k);
    PowPositive(2, 485 * k);
    LessThanTwice(a, b, k);
    CancelLess(a, b, Pow(10, 146 * k), Pow(2, 485 * k));
  }

  lemma LessThanTwice(a: nat, b: nat, k: nat)
    requires k <= 146 && 0 < a && b * (900 - k) <= a * 900
    ensures b < 2 * a
  {
    if b >= 2 * a {
      TimesLe(2 * a, b, 754, 900 - k);
    }
  }

  lemma CancelLess(a: nat, b: nat, x: nat, y: nat)
    requires 0 < y && b < 2 * a && a * x <= b * y
    ensures x < 2 * y
  {
    TimesLe(b + 1, 2 * a, y, y);
    assert a * (2 * y) == 2 * a * y && (b + 1) * y == b * y + y;
    if x >= 2 * y {
      TimesLe(a, a, 2 * y, x);
    }
  }

  /** Below 485 bits the number of digits is exact: the largest value has that many. */
  lemma BitDigitsNeeded(n: nat)
    requires n < 485
    ensures Pow(2, n) > 0 && |Decimal(Pow(2, n) - 1)| == BitDigits(n)
  {
    var k := n * 146 / 485;
    PowPositive(2, n);
    BitDigitsSuffice(n, Pow(2, n) - 1);
    if k > 0 {
      BelowRatio(k, n);
      TenBelowTwo(k, n);
      DigitsOf(Pow(2, n) - 1, k - 1);
    }
  }

  lemma BelowRatio(k: nat, n: nat)
    requires 0 < n < 485 && k == n * 146 / 485
    ensures k <= 146 && 485 * k < 146 * n
  {
    if 485 * k == 146 * n {
      NoSharedFactor(k, n);
      assert false;
    }
  }

  lemma TenBelowTwo(k: nat, n: nat)
    requires k <= 146 && 485 * k < 146 * n
    ensures Pow(10, k) < Pow(2, n)
  {
    TenToMultiple(k);
    PowMonotone(2, 485 * k + 1, 146 * n);
    assert Pow(2, 485 * k + 1) == 2 * Pow(2, 485 * k);
    RootsCompare(10, k, 2, n, 146);
  }

  /** For any number of bits: exact exactly if the power of ten with as many zeros as there are digits
      behind the first is below the power of two. */
  lemma BitDigitsExactly(n: nat)
    requires n >= 1
    ensures Pow(2, n) > 0
    ensures |Decimal(Pow(2, n) - 1)| == BitDigits(n) <==>
              n * 146 / 485 == 0 || Pow(10, n * 146 / 485) < Pow(2, n)
  {
    var k := n * 146 / 485;
    PowPositive(2, n);
    BitDigitsSuffice(n, Pow(2, n) - 1);
    if k > 0 {
      DigitsOf(Pow(2, n) - 1, k - 1);
    }
  }

  /** 485 and 146 have no common factor. */
  lemma NoSharedFactor(k: nat, n: nat)
    requires 485 * k == 146 * n
    ensures n % 485 == 0
  {
    assert 196 * (146 * n) == 59 * 485 * n + n;
    assert n == 485 * (196 * k - 59 * n);
  }

  /** At 485 bits it is one too many. */
  lemma BitDigitsLoose()
    ensures BitDigits(485) == 147
    ensures Pow(2, 485) > 0 && |Decimal(Pow(2, 485) - 1)| == 146
  {
    Logarithm();
    DigitsBetween(485, 146);
  }

  /** Between the last two powers of ten. */
  lemma DigitsBetween(n: nat, k: nat)
    requires k >= 2 && Pow(2, n) < Pow(10, k) && 900 * Pow(10, k) <= 901 * Pow(2, n)
    ensures Pow(2, n) > 0 && |Decimal(Pow(2, n) - 1)| == k
  {
    PowPositive(2, n);
    PowPositive(10, k - 1);
    assert Pow(10, k) == 10 * Pow(10, k - 1);
    DigitsOf(Pow(2, n) - 1, k - 1);
    DigitsOf(Pow(2, n) - 1, k - 2);
  }

  /** Up to 60 bytes the buffer has room for exactly the digits of the largest value, and two more. */
  lemma TypeCharsExactly(size: nat)
    requires size <= 60
    ensures Pow(2, size * 8) > 0 && TypeChars(size) == |Decimal(Pow(2, size * 8) - 1)| + 2
  {
    BitDigitsNeeded(size * 8);
  }
}
