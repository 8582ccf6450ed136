/**
 The wait before a health check of a client that has failed before: two to the number of failures,
 in seconds, capped at thirty. It is computed on 64-bit durations, which wrap around.
 */
module HealthBackoff {
  import opened Arithmetic

  const SECOND := 1_000_000_000
  const CAP := 30 * SECOND
  const TWO_63 := 0x8000_0000_0000_0000
  const TWO_64 := 0x1_0000_0000_0000_0000

  /** 10^9 is this times 2^9. */
  const ODD_PART := 1953125

  /** Conversion to a signed 64-bit integer. */
  function ToInt64(x: int): int {
    var r := x % TWO_64;
    if r < TWO_63 then r else r - TWO_64
  }

  /** The shift and the multiplication by a second. */
  function Backoff(failures: nat): int {
    ToInt64(ToInt64(Pow2(failures)) * SECOND)
  }

  /** The cap, and a sleep that ignores negative durations. */
  function Slept(backoff: int): int {
    var capped := if backoff > CAP then CAP else backoff;
    if capped < 0 then 0 else capped
  }

  /** A client without failures is checked at once. */
  function SleepTime(failures: nat): int {
    if failures > 0 then Slept(Backoff(failures)) else 0
  }

  /** The wait that is meant. */
  function CappedWait(failures: nat): int {
    if failures == 0 then 0
    else if Pow2(failures) < 30 then Pow2(failures) * 1_000_000_000
    else 30_000_000_000
  }

  lemma {:induction false} Pow2Adds(a: nat, b: nat)
    ensures Pow2(a) * Pow2(b) == Pow2(a + b)
  {
    if a > 0 {
      Pow2Adds(a - 1, b);
      assert Pow2(a) * Pow2(b) == 2 * (Pow2(a - 1) * Pow2(b));
    }
  }

  lemma {:induction false} Pow2Grows(a: nat, b: nat)
    requires a <= b
    ensures Pow2(a) <= Pow2(b)
  {
    if a < b { Pow2Grows(a, b - 1); }
  }

  lemma Powers()
    ensures Pow2(4) == 16 && Pow2(5) == 32 && Pow2(9) == 512 && Pow2(21) == 0x20_0000
    ensures Pow2(34) == 0x4_0000_0000 && Pow2(43) == 0x800_0000_0000
    ensures Pow2(55) == 0x80_0000_0000_0000 && Pow2(62) == 0x4000_0000_0000_0000
    ensures Pow2(63) == TWO_63 && Pow2(64) == TWO_64
  {
    assert Pow2(4) == 16;
    assert Pow2(5) == 32;
    Pow2Adds(4, 5);
    Pow2Adds(4, 4);
    Pow2Adds(8, 8);
    Pow2Adds(16, 5);
    Pow2Adds(16, 16);
    assert Pow2(1) == 2 && Pow2(2) == 4;
    Pow2Adds(32, 2);
    Pow2Adds(34, 9);
    Pow2Adds(34, 21);
    Pow2Adds(55, 5);
    Pow2Adds(60, 2);
    Pow2Adds(62, 1);
    Pow2Adds(62, 2);
  }

  lemma MultipleVanishes(k: int)
    ensures ToInt64(k * TWO_64) == 0
  {
    Unique(k, 0, TWO_64);
  }

  /** From 55 failures on, the product is a multiple of 2^64. */
  lemma LongOutageVanishes(failures: nat)
    requires failures >= 55
    ensures SleepTime(failures) == 0
  {
    Powers();
    if failures <= 62 {
      Pow2Grows(failures, 62);
      Small(Pow2(failures), TWO_64);
      Pow2Adds(failures - 55, 55);
      MultipleVanishes(Pow2(failures - 55) * ODD_PART);
      assert Pow2(failures) * SECOND == (Pow2(failures - 55) * ODD_PART) * TWO_64;
    } else if failures == 63 {
      Small(TWO_63, TWO_64);
      MultipleVanishes(-500_000_000);
    } else {
      Pow2Adds(failures - 64, 64);
      MultipleVanishes(Pow2(failures - 64));
      MultipleVanishes(0);
    }
  }

  /**
   Multiplying by p, where 2 * m * p is 2^64, keeps of q its remainder modulo m and one binary digit,
   and that digit lands on the sign bit.
   */
  lemma SignDigit(q: nat, m: nat, p: nat)
    requires 0 < m && m * p == TWO_63
    ensures q * p % TWO_64 == (q / m % 2) * TWO_63 + (q % m) * p
    ensures 0 <= (q % m) * p < TWO_63
  {
    var digit, low := q / m % 2, q % m;
    var half := q / m / 2;
    assert q == (2 * half + digit) * m + low;
    calc {
      q * p;
      ((2 * half + digit) * m + low) * p;
      (2 * half + digit) * m * p + low * p;
      { Associate(2 * half + digit, m, p); }
      (2 * half + digit) * TWO_63 + low * p;
      half * TWO_64 + (digit * TWO_63 + low * p);
    }
    Below(low, m, p);
    Unique(half, digit * TWO_63 + low * p, TWO_64);
  }

  lemma Associate(a: int, b: int, c: int)
    ensures a * b * c == a * (b * c)
  {
  }

  lemma Below(a: int, b: int, p: int)
    requires 0 <= a < b && 0 < p
    ensures 0 <= a * p < b * p
  {
  }

  /** The product for up to 54 failures, in terms of one binary digit of 5^9. */
  lemma Product(failures: nat)
    requires failures <= 54
    ensures var m := Pow2(54 - failures); var rest := (ODD_PART % m) * Pow2(failures + 9);
      && 0 <= rest < TWO_63
      && Backoff(failures) == if ODD_PART / m % 2 == 0 then rest else rest - TWO_63
  {
    Powers();
    Pow2Grows(failures, 62);
    Small(Pow2(failures), TWO_64);
    Pow2Adds(failures, 9);
    assert Pow2(failures) * SECOND == ODD_PART * Pow2(failures + 9);
    Pow2Adds(54 - failures, failures + 9);
    SignDigit(ODD_PART, Pow2(54 - failures), Pow2(failures + 9));
  }

  lemma FewFailures(failures: nat)
    requires failures <= 33
    ensures ODD_PART / Pow2(54 - failures) == 0
    ensures Backoff(failures) == Pow2(failures) * SECOND
  {
    Product(failures);
    Powers();
    Pow2Grows(21, 54 - failures);
    WholeProduct(Pow2(54 - failures), Pow2(failures + 9), Backoff(failures));
    Pow2Adds(failures, 9);
  }

  lemma WholeProduct(m: nat, p: nat, x: int)
    requires m > ODD_PART
    requires x == if ODD_PART / m % 2 == 0 then (ODD_PART % m) * p else (ODD_PART % m) * p - TWO_63
    ensures x == ODD_PART * p && ODD_PART / m == 0
  {
    Small(ODD_PART, m);
  }

  lemma ManyFailures(failures: nat)
    requires 34 <= failures <= 54 && ODD_PART / Pow2(54 - failures) % 2 == 0
    ensures Backoff(failures) > CAP
  {
    Product(failures);
    Powers();
    Pow2Grows(43, failures + 9);
    LargeProduct(Pow2(54 - failures), Pow2(failures + 9));
  }

  lemma LargeProduct(m: nat, p: nat)
    requires 0 < m && ODD_PART / m % 2 == 0 && p > CAP
    ensures (ODD_PART % m) * p > CAP
  {
    OddRemainder(m);
    Below(1, ODD_PART % m + 1, p);
  }

  /** While the digit is zero, the product is the wanted number of seconds or well above the cap. */
  lemma ProductIsMeant(failures: nat)
    requires failures <= 54 && ODD_PART / Pow2(54 - failures) % 2 == 0
    ensures SleepTime(failures) == CappedWait(failures)
  {
    assert Pow2(failures) < 30 <==> failures <= 4 by {
      Powers();
      if failures <= 4 { Pow2Grows(failures, 4); } else { Pow2Grows(5, failures); }
    }
    if failures <= 33 { FewFailures(failures); } else { ManyFailures(failures); }
  }

  lemma OddRemainder(m: nat)
    requires 0 < m && ODD_PART / m % 2 == 0
    ensures ODD_PART % m > 0
  {
    var half := ODD_PART / m / 2;
    assert ODD_PART == 2 * half * m + ODD_PART % m;
    Associate(2, half, m);
  }

  /** A one in that place makes the product negative, and there is no wait. */
  lemma DigitMeansNoWait(failures: nat)
    requires failures <= 54 && ODD_PART / Pow2(54 - failures) % 2 != 0
    ensures SleepTime(failures) == 0 < CappedWait(failures)
  {
    if failures == 0 { FewFailures(0); }
    Product(failures);
  }

  /**
   The wait is the one that is meant exactly while the digit that lands on the sign bit is zero:
   for up to 33 failures always, and from 55 on never.
   */
  lemma WaitsAsMeantExactlyWhen(failures: nat)
    ensures SleepTime(failures) == CappedWait(failures) <==>
      failures <= 54 && ODD_PART / Pow2(54 - failures) % 2 == 0
  {
    if failures >= 55 {
      LongOutageVanishes(failures);
      assert CappedWait(failures) > 0;
    } else if ODD_PART / Pow2(54 - failures) % 2 == 0 {
      ProductIsMeant(failures);
    } else {
      DigitMeansNoWait(failures);
    }
  }

  /** The powers of two up to the length of 5^9. */
  lemma SmallPowers()
    ensures Pow2(0) == 1 && Pow2(1) == 2 && Pow2(2) == 4 && Pow2(3) == 8 && Pow2(4) == 16
    ensures Pow2(5) == 32 && Pow2(6) == 64 && Pow2(7) == 128 && Pow2(8) == 256 && Pow2(9) == 512
    ensures Pow2(10) == 1024 && Pow2(11) == 2048 && Pow2(12) == 4096 && Pow2(13) == 8192
    ensures Pow2(14) == 0x4000 && Pow2(15) == 0x8000 && Pow2(16) == 0x1_0000 && Pow2(17) == 0x2_0000
    ensures Pow2(18) == 0x4_0000 && Pow2(19) == 0x8_0000 && Pow2(20) == 0x10_0000
  {
    assert Pow2(5) == 32;
    assert Pow2(10) == 1024;
    assert Pow2(15) == 0x8000;
  }

  /** Where 5^9 has a zero among its 21 binary digits. */
  lemma ZeroDigits(k: nat)
    requires k <= 20
    ensures ODD_PART / Pow2(k) % 2 == 0 <==> k in {1, 3, 4, 7, 9, 12, 13, 17}
  {
    SmallPowers();
    if k <= 6 {
      assert k in {0, 1, 2, 3, 4, 5, 6};
    } else if k <= 13 {
      assert k in {7, 8, 9, 10, 11, 12, 13};
    } else {
      assert k in {14, 15, 16, 17, 18, 19, 20};
    }
  }

  /** In numbers: the wait is right up to 33 failures and at eight larger counts, the last of them 53. */
  lemma RightCounts(failures: nat)
    ensures SleepTime(failures) == CappedWait(failures) <==>
      failures <= 33 || failures in {37, 41, 42, 45, 47, 50, 51, 53}
  {
    WaitsAsMeantExactlyWhen(failures);
    if failures <= 33 {
      FewFailures(failures);
    } else if failures <= 54 {
      ZeroDigits(54 - failures);
    }
  }

  /** Up to 33 failures the wait is right; at 34 there is none at all. */
  lemma FirstCollapse(failures: nat)
    ensures failures <= 33 ==> SleepTime(failures) == CappedWait(failures)
    ensures failures == 34 ==> SleepTime(failures) == 0 < CappedWait(failures)
  {
    RightCounts(failures);
    if failures == 34 {
      ZeroDigits(20);
      DigitMeansNoWait(34);
    }
  }
}
