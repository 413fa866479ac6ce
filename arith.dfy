/**
 * Machine integers and the fixed-point arithmetic behind the digit printer.
 *
 * The C++ code multiplies 32-bit values into 64-bit products and truncates
 * them back to 32 (or 16) bits.  Here the widths are newtypes, so every
 * assignment to a `u32`/`u64` is checked not to overflow, and a truncating
 * cast `uint4::raw_type(prod)` is written out as `prod % TWO32`.
 */
module Arith {

  newtype u16 = x: int | 0 <= x < 0x1_0000
  newtype u32 = x: int | 0 <= x < 0x1_0000_0000
  newtype u64 = x: int | 0 <= x < 0x1_0000_0000_0000_0000

  const TWO15: nat := 0x8000
  const TWO16: nat := 0x1_0000
  const TWO25: nat := 0x200_0000
  const TWO32: nat := 0x1_0000_0000

  /** 10^k */
  function Pow10(k: nat): (r: nat)
    ensures r >= 1
    ensures k >= 1 ==> r >= 10
  {
    if k == 0 then 1 else 10 * Pow10(k - 1)
  }

  /** Pow10 grows with its exponent. */
  lemma {:induction false} Pow10Monotone(i: nat, j: nat)
    requires i <= j
    ensures Pow10(i) <= Pow10(j)
    decreases j
  {
    if i < j {
      Pow10Monotone(i, j - 1);
    }
  }

  /** 10^(a+b) = 10^a * 10^b */
  lemma {:induction false} Pow10Add(a: nat, b: nat)
    ensures Pow10(a + b) == Pow10(a) * Pow10(b)
    decreases b
  {
    if b > 0 {
      Pow10Add(a, b - 1);
      MulTen(Pow10(a), Pow10(b - 1));
    }
  }

  lemma MulTen(x: int, y: int)
    ensures x * (10 * y) == 10 * (x * y)
  {
  }

  /** n / 10^k: the number left after dropping the last k decimal digits of n. */
  function DropDigits(n: nat, k: nat): (r: nat)
    ensures r == n / Pow10(k)
    decreases k
  {
    if k == 0 then n else (DivDiv(n, 10, Pow10(k - 1)); DropDigits(n / 10, k - 1))
  }

  /** Quotient and remainder are determined by any decomposition v = q*d + t, 0 <= t < d. */
  lemma DivModUnique(v: int, d: int, q: int, t: int)
    requires d > 0 && 0 <= t < d && v == q * d + t
    ensures v / d == q && v % d == t
  {
    var q', t' := v / d, v % d;
    assert v == q' * d + t' && 0 <= t' < d;
    if q' < q {
      assert (q - q') * d >= d by { MulAtLeast(q - q', d); }
      assert false;
    } else if q' > q {
      assert (q' - q) * d >= d by { MulAtLeast(q' - q, d); }
      assert false;
    }
  }

  lemma MulAtLeast(a: int, d: int)
    requires a >= 1 && d > 0
    ensures a * d >= d
  {
  }

  /** A quotient is below c when the dividend is below c times the divisor. */
  lemma DivBelow(a: nat, b: nat, c: nat)
    requires b > 0 && a < b * c
    ensures 0 <= a / b < c
  {
    var q, r := a / b, a % b;
    assert a == q * b + r;
    if q >= c {
      MulMonoRight(c, q, b);
      assert false;
    }
    if q < 0 {
      NonPosMul(q, b);
      assert false;
    }
  }

  /** Taking a difference modulo M commutes with reducing both operands modulo M first. */
  lemma ModSub(x: nat, y: nat, M: nat)
    requires M > 0
    ensures (x % M - y % M) % M == (x - y) % M
  {
    var qx, qy := x / M, y / M;
    assert x % M - y % M == (x - y) + (qy - qx) * M;
    var z := x - y;
    assert z == (z / M) * M + z % M;
    DivModUnique(x % M - y % M, M, z / M + qy - qx, z % M);
  }

  /** Dividing twice is dividing by the product. */
  lemma DivDiv(a: nat, b: nat, c: nat)
    requires b > 0 && c > 0
    ensures b * c > 0
    ensures a / b / c == a / (b * c)
  {
    var q := a / b / c;
    var t := (a / b) % c * b + a % b;
    assert a == (q * c + (a / b) % c) * b + a % b;
    assert a == q * (b * c) + t;
    assert t < b * c by {
      assert (a / b) % c <= c - 1;
      assert (a / b) % c * b <= (c - 1) * b;
    }
    DivModUnique(a, b * c, q, t);
  }

  /** Taking the low digits of the quotient is the same as taking the quotient of the low digits. */
  lemma ModDiv(a: nat, b: nat, c: nat)
    requires b > 0 && c > 0
    ensures b * c > 0
    ensures (a % (b * c)) / b == (a / b) % c
    ensures (a % (b * c)) % b == a % b
  {
    DivDiv(a, b, c);
    var q := a / (b * c);
    var r := a % (b * c);
    assert a == q * (b * c) + r;
    assert a == (q * c + r / b) * b + r % b;
    DivModUnique(a, b, q * c + r / b, r % b);
    assert a / b == q * c + r / b;
    DivModUnique(a / b, c, q, r / b);
  }

  /**
   * The fixed-point approximation at the heart of the digit printer:
   * `x / B` read as a number with m decimal places lies in [v / 10^m, (v+1) / 10^m),
   * that is, floor(x * 10^m / B) == v.
   */
  ghost predicate Approx(x: int, v: int, m: nat, B: int)
  {
    v * B <= x * Pow10(m) < (v + 1) * B
  }

  /** Approx is floor(x * 10^m / B) == v, stated with a division. */
  lemma {:induction false} ApproxIsFloor(x: nat, v: nat, m: nat, B: nat)
    requires B > 0
    ensures Approx(x, v, m, B) <==> (x * Pow10(m)) / B == v
  {
    var y := x * Pow10(m);
    if Approx(x, v, m, B) {
      DivModUnique(y, B, v, y - v * B);
    }
    if y / B == v {
      assert y == v * B + y % B;
    }
  }

  /**
   * The integer part of x / B is the leading part v / 10^m, and the fractional
   * part x % B approximates the remaining m digits v % 10^m just as well.
   */
  lemma {:induction false} ApproxSplit(x: nat, v: nat, m: nat, B: nat)
    requires B > 0 && Approx(x, v, m, B)
    ensures x / B == v / Pow10(m)
    ensures Approx(x % B, v % Pow10(m), m, B)
  {
    var P := Pow10(m);
    var q, L := x / B, x % B;
    assert x == q * B + L;
    assert x * P == q * P * B + L * P;
    var t := v - q * P;
    assert v * B == q * P * B + t * B;
    assert t * B <= L * P < (t + 1) * B;
    assert 0 <= L * P;
    assert L * P < B * P by { StrictMulRight(L, B, P); }
    assert t >= 0 by {
      if t < 0 {
        assert t + 1 <= 0;
        NonPosMul(t + 1, B);
      }
    }
    assert t < P by {
      if t >= P {
        MulMonoRight(P, t, B);
      }
    }
    DivModUnique(v, P, q, t);
  }

  lemma StrictMulRight(a: nat, b: nat, c: nat)
    requires a < b && c > 0
    ensures a * c < b * c
  {
  }

  lemma NonPosMul(a: int, b: nat)
    requires a <= 0
    ensures a * b <= 0
  {
  }

  lemma MulMonoRight(a: int, b: int, c: nat)
    requires a <= b
    ensures a * c <= b * c
  {
  }

  /** Multiplying the fraction by 100 moves two of its m digits into the integer part. */
  lemma ApproxTimes100(x: nat, v: nat, m: nat, B: nat)
    requires m >= 2 && Approx(x, v, m, B)
    ensures Approx(x * 100, v, m - 2, B)
  {
    Pow10Add(2, m - 2);
    assert Pow10(m) == 100 * Pow10(m - 2);
    assert x * Pow10(m) == (x * 100) * Pow10(m - 2);
  }
}
