/**
 * The decimal text of a natural number: the reference definitions that the
 * digit printer is proved against, and their properties.
 */
module Decimal {
  import opened Arith

  /** The ASCII character of one decimal digit, `char('0' + d)`. */
  function DigitChar(d: nat): (c: char)
    requires d < 10
    ensures '0' <= c <= '9'
  {
    (48 + d) as char
  }

  predicate IsDigit(c: char)
  {
    '0' <= c <= '9'
  }

  predicate AllDigits(s: seq<char>)
  {
    forall i :: 0 <= i < |s| ==> IsDigit(s[i])
  }

  /** The value of one ASCII digit. */
  function DigitValue(c: char): (d: nat)
    requires IsDigit(c)
    ensures d < 10 && DigitChar(d) == c
  {
    (c as int) - 48
  }

  /** The decimal digits of n, most significant first, without leading zeros ("0" for zero). */
  function DecimalText(n: nat): (r: seq<char>)
    ensures |r| == NumDigits(n)
    decreases n
  {
    if n < 10 then [DigitChar(n)] else DecimalText(n / 10) + [DigitChar(n % 10)]
  }

  /** The last k decimal digits of n, zero-padded to exactly k characters. */
  function Padded(n: nat, k: nat): (r: seq<char>)
    ensures |r| == k
    decreases k
  {
    if k == 0 then [] else Padded(n / 10, k - 1) + [DigitChar(n % 10)]
  }

  /** The number of decimal digits of n (one for zero). */
  function NumDigits(n: nat): (d: nat)
    ensures d >= 1
    decreases n
  {
    if n < 10 then 1 else 1 + NumDigits(n / 10)
  }

  /** The number a string of digits denotes: the partner of DecimalText and Padded. */
  function ValueOf(s: seq<char>): nat
    requires AllDigits(s)
    decreases |s|
  {
    if s == [] then 0 else ValueOf(s[..|s| - 1]) * 10 + DigitValue(s[|s| - 1])
  }

  /** Scientific mantissa layout: a '.' after the first digit when more than one digit follows. */
  function PointAfterFirst(ds: seq<char>): (r: seq<char>)
    ensures |ds| <= 1 ==> r == ds
    ensures |ds| >= 2 ==> |r| == |ds| + 1 && r[0] == ds[0] && r[1] == '.' && r[2..] == ds[1..]
  {
    if |ds| <= 1 then ds else ds[..1] + ['.'] + ds[1..]
  }

  /** A point goes right after the first of two or more digits. */
  lemma PointAfterFirstLead(c: char, rest: seq<char>)
    requires rest != []
    ensures PointAfterFirst([c] + rest) == [c, '.'] + rest
  {
    var ds := [c] + rest;
    assert ds[..1] == [c] && ds[1..] == rest;
  }

  /** Digits appended after the second digit keep the point where it was. */
  lemma PointAfterFirstAppend(a: seq<char>, b: seq<char>)
    requires |a| >= 2
    ensures PointAfterFirst(a + b) == PointAfterFirst(a) + b
  {
    assert (a + b)[..1] == a[..1];
    assert (a + b)[1..] == a[1..] + b;
  }

  /** The buffer a after writing t at position at, every other cell kept. */
  function Splice(a: seq<char>, at: nat, t: seq<char>): (r: seq<char>)
    requires at + |t| <= |a|
    ensures |r| == |a|
    ensures r[at..at + |t|] == t
    ensures forall i :: 0 <= i < |a| && !(at <= i < at + |t|) ==> r[i] == a[i]
  {
    a[..at] + t + a[at + |t|..]
  }

  // ---------------------------------------------------------------------
  // Lengths and digit counts
  // ---------------------------------------------------------------------

  /** NumDigits(n) is the k with 10^(k-1) <= n < 10^k (for positive n). */
  lemma {:induction false} NumDigitsBounds(n: nat)
    ensures n < Pow10(NumDigits(n))
    ensures n > 0 ==> Pow10(NumDigits(n) - 1) <= n
    decreases n
  {
    if n >= 10 {
      NumDigitsBounds(n / 10);
    }
  }

  /** A number below 10^k has at most k digits. */
  lemma NumDigitsAtMost(n: nat, k: nat)
    requires k >= 1 && n < Pow10(k)
    ensures NumDigits(n) <= k
  {
    NumDigitsBounds(n);
    if NumDigits(n) > k {
      Pow10Monotone(k, NumDigits(n) - 1);
    }
  }

  /** Conversely, the bounds determine the digit count. */
  lemma {:induction false} NumDigitsUnique(n: nat, k: nat)
    requires k >= 1 && Pow10(k - 1) <= n < Pow10(k)
    ensures NumDigits(n) == k
    decreases k
  {
    if k > 1 {
      assert n >= 10 by { Pow10Monotone(1, k - 1); }
      NumDigitsUnique(n / 10, k - 1);
    }
  }

  /** The digit count of n / 10^m is m fewer than that of n, when n has more than m digits. */
  lemma {:induction false} NumDigitsDiv(n: nat, m: nat)
    requires n >= Pow10(m)
    ensures NumDigits(n) == NumDigits(DropDigits(n, m)) + m
    decreases m
  {
    if m > 0 {
      Pow10Add(1, m - 1);
      DivDiv(n, 10, Pow10(m - 1));
      assert n / 10 >= Pow10(m - 1);
      NumDigitsDiv(n / 10, m - 1);
    }
  }

  // ---------------------------------------------------------------------
  // Shape and round trips
  // ---------------------------------------------------------------------

  /** DecimalText writes only digits, and a leading zero only for zero itself. */
  lemma {:induction false} DecimalTextShape(n: nat)
    ensures AllDigits(DecimalText(n))
    ensures |DecimalText(n)| >= 1
    ensures DecimalText(n)[0] == '0' <==> n == 0
    decreases n
  {
    if n >= 10 {
      DecimalTextShape(n / 10);
    }
  }

  lemma {:induction false} PaddedShape(n: nat, k: nat)
    ensures AllDigits(Padded(n, k))
    decreases k
  {
    if k > 0 {
      PaddedShape(n / 10, k - 1);
    }
  }

  /** Reading back the decimal text gives the number. */
  lemma {:induction false} DecimalTextRoundTrip(n: nat)
    ensures AllDigits(DecimalText(n)) && ValueOf(DecimalText(n)) == n
    decreases n
  {
    DecimalTextShape(n);
    if n >= 10 {
      DecimalTextRoundTrip(n / 10);
      var s := DecimalText(n);
      assert s[..|s| - 1] == DecimalText(n / 10);
    }
  }

  /** Reading back the padded text gives the number modulo 10^k. */
  lemma {:induction false} PaddedRoundTrip(n: nat, k: nat)
    ensures AllDigits(Padded(n, k)) && ValueOf(Padded(n, k)) == n % Pow10(k)
    decreases k
  {
    PaddedShape(n, k);
    if k > 0 {
      PaddedRoundTrip(n / 10, k - 1);
      var s := Padded(n, k);
      assert s[..|s| - 1] == Padded(n / 10, k - 1);
      Pow10Add(1, k - 1);
      ModDiv(n, 10, Pow10(k - 1));
      var P := Pow10(k - 1);
      assert n % (10 * P) == (n / 10) % P * 10 + n % 10 by {
        DivModUnique(n % (10 * P), 10, (n / 10) % P, n % 10);
      }
    }
  }

  // ---------------------------------------------------------------------
  // Splitting a number's text into blocks
  // ---------------------------------------------------------------------

  /** The last a+b digits are the a digits above the last b, then the last b. */
  lemma {:induction false} PaddedSplit(n: nat, a: nat, b: nat)
    ensures Padded(n, a + b) == Padded(DropDigits(n, b), a) + Padded(n, b)
    decreases b
  {
    if b > 0 {
      var q := n / 10;
      PaddedSplit(q, a, b - 1);
      assert Padded(q, a + (b - 1)) == Padded(DropDigits(q, b - 1), a) + Padded(q, b - 1);
      Pow10Add(1, b - 1);
      DivDiv(n, 10, Pow10(b - 1));
      assert DropDigits(q, b - 1) == DropDigits(n, b);
      assert Padded(n, a + b) == Padded(q, a + (b - 1)) + [DigitChar(n % 10)];
      assert Padded(n, b) == Padded(q, b - 1) + [DigitChar(n % 10)];
    }
  }

  /** The padded text only depends on n modulo 10^k. */
  lemma {:induction false} PaddedMod(n: nat, k: nat)
    ensures Padded(n, k) == Padded(n % Pow10(k), k)
    decreases k
  {
    if k > 0 {
      Pow10Add(1, k - 1);
      ModDiv(n, 10, Pow10(k - 1));
      PaddedMod(n / 10, k - 1);
      PaddedMod((n % Pow10(k)) / 10, k - 1);
    }
  }

  /** A number with more than m digits is its leading part's text followed by its last m digits. */
  lemma {:induction false} TextSplit(n: nat, m: nat)
    requires n >= Pow10(m)
    ensures DecimalText(n) == DecimalText(DropDigits(n, m)) + Padded(n, m)
    decreases m
  {
    if m > 0 {
      Pow10Add(1, m - 1);
      DivDiv(n, 10, Pow10(m - 1));
      TextSplit(n / 10, m - 1);
    }
  }

  /** A number of exactly k digits is written the same with or without padding to k. */
  lemma {:induction false} TextIsPadded(n: nat, k: nat)
    requires k >= 1 && Pow10(k - 1) <= n < Pow10(k)
    ensures DecimalText(n) == Padded(n, k)
    decreases k
  {
    if k > 1 {
      Pow10Add(1, k - 2);
      assert n >= 10;
      TextIsPadded(n / 10, k - 1);
    }
  }

  // ---------------------------------------------------------------------
  // Splice algebra for buffers
  // ---------------------------------------------------------------------

  /** Writing x and then y right after it is writing x + y. */
  lemma SpliceSplice(a: seq<char>, at: nat, x: seq<char>, y: seq<char>)
    requires at + |x| + |y| <= |a|
    ensures Splice(Splice(a, at, x), at + |x|, y) == Splice(a, at, x + y)
  {
    var l := Splice(Splice(a, at, x), at + |x|, y);
    var r := Splice(a, at, x + y);
    assert forall i :: 0 <= i < |a| ==> l[i] == r[i] by {
      forall i | 0 <= i < |a| ensures l[i] == r[i] {
        if at <= i < at + |x| {
          assert l[i] == x[i - at];
          assert r[i] == (x + y)[i - at];
        } else if at + |x| <= i < at + |x| + |y| {
          assert l[i] == y[i - at - |x|];
          assert r[i] == (x + y)[i - at];
        }
      }
    }
  }

  /** A single cell update is a one-character splice. */
  lemma SpliceOne(a: seq<char>, at: nat, c: char)
    requires at < |a|
    ensures a[at := c] == Splice(a, at, [c])
  {
    var r := Splice(a, at, [c]);
    assert r[at..at + 1] == [c];
    assert r[at] == c;
  }
}
