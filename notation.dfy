/**
 * The text `to_chars` produces, as a specification: the decimal digits of the
 * significand with a point after the first, then the exponent of the first
 * digit.  A reader for that text shows that it denotes exactly the value it
 * was printed from.
 */
module Notation {
  import opened Arith
  import opened Decimal

  datatype Option<T> = None | Some(value: T)

  // ---------------------------------------------------------------------
  // What gets printed
  // ---------------------------------------------------------------------

  /** The significand as printed: its digits, with a '.' after the first when more follow. */
  function SignificandText(n: nat): seq<char>
  {
    PointAfterFirst(DecimalText(n))
  }

  /** "E-" for a negative exponent, "E" otherwise: no '+' is ever written. */
  function ExponentMarker(x: int): seq<char>
  {
    if x < 0 then ['E', '-'] else ['E']
  }

  function Magnitude(x: int): nat
  {
    if x < 0 then -x else x
  }

  /** The exponent suffix: marker, then the magnitude without leading zeros. */
  function ExponentText(x: int): seq<char>
  {
    ExponentMarker(x) + DecimalText(Magnitude(x))
  }

  /** The text for the value n * 10^e: the exponent printed is that of the first digit. */
  function Scientific(n: nat, e: int): seq<char>
  {
    SignificandText(n) + ExponentText(e + NumDigits(n) - 1)
  }

  /** The printed significand has the digits of n and one more character for the point when n >= 10. */
  lemma SignificandLength(n: nat)
    ensures |SignificandText(n)| == if n < 10 then 1 else NumDigits(n) + 1
    ensures |SignificandText(n)| <= NumDigits(n) + 1
  {
    if n >= 10 {
      assert NumDigits(n) == 1 + NumDigits(n / 10);
    }
  }

  // ---------------------------------------------------------------------
  // Shape of the exponent suffix
  // ---------------------------------------------------------------------

  /**
   * The suffix is 'E', then '-' exactly when the exponent is negative (never
   * '+'), then the magnitude's digits, with a leading zero only for zero.
   */
  lemma ExponentTextShape(x: int)
    ensures var t := ExponentText(x);
      var digits := t[|ExponentMarker(x)|..];
      t[0] == 'E' && '+' !in t &&
      (x < 0 <==> t[1] == '-') &&
      AllDigits(digits) && digits != [] && (digits[0] == '0' <==> x == 0)
  {
    var t := ExponentText(x);
    var digits := DecimalText(Magnitude(x));
    DecimalTextShape(Magnitude(x));
    assert t[|ExponentMarker(x)|..] == digits;
    assert t[1] == (if x < 0 then '-' else digits[0]);
  }

  // ---------------------------------------------------------------------
  // Reading the text back
  // ---------------------------------------------------------------------

  /** The position of the first 'E', or |t| when there is none. */
  function IndexOfE(t: seq<char>): (k: nat)
    ensures k <= |t| && 'E' !in t[..k]
    ensures k < |t| ==> t[k] == 'E'
  {
    if t == [] then 0
    else if t[0] == 'E' then 0
    else (assert t[..1 + IndexOfE(t[1..])] == [t[0]] + t[1..][..IndexOfE(t[1..])]; 1 + IndexOfE(t[1..]))
  }

  /** The digits of a significand without its point. */
  function DropPoint(m: seq<char>): seq<char>
  {
    if |m| >= 3 && m[1] == '.' then m[..1] + m[2..] else m
  }

  /** Reads `[-]x` as an exponent: an optional minus, then one or more digits. */
  function ReadExponent(rest: seq<char>): Option<int>
  {
    var negative := rest != [] && rest[0] == '-';
    var digits := if negative then rest[1..] else rest;
    if digits == [] || !AllDigits(digits) then None
    else
      var magnitude: int := ValueOf(digits);
      Some(if negative then -magnitude else magnitude)
  }

  /**
   * Reads `d[.ddd]E[-]x` as the significand's digits and the exponent of its
   * last digit: the pair (n, e) with value n * 10^e.
   */
  function ReadScientific(t: seq<char>): Option<(nat, int)>
  {
    var k := IndexOfE(t);
    if k == |t| then None
    else
      var digits := DropPoint(t[..k]);
      var x := ReadExponent(t[k + 1..]);
      if digits == [] || !AllDigits(digits) || x.None? then None
      else Some((ValueOf(digits), x.value - (|digits| - 1)))
  }

  /** The exponent suffix after its 'E' reads back as the exponent. */
  lemma ReadExponentRoundTrip(x: int)
    ensures ExponentText(x) != [] && ReadExponent(ExponentText(x)[1..]) == Some(x)
  {
    var mag := DecimalText(Magnitude(x));
    DecimalTextShape(Magnitude(x));
    DecimalTextRoundTrip(Magnitude(x));
    var rest := ExponentText(x)[1..];
    if x < 0 {
      assert rest == ['-'] + mag;
      assert rest[1..] == mag;
    } else {
      assert rest == mag;
      assert IsDigit(mag[0]);
    }
  }

  /** The first 'E' after a prefix without one is where the prefix ends. */
  lemma {:induction false} IndexOfEAfter(a: seq<char>, b: seq<char>)
    requires 'E' !in a && b != [] && b[0] == 'E'
    ensures IndexOfE(a + b) == |a|
    decreases |a|
  {
    if a != [] {
      assert a[0] in a;
      assert (a + b)[1..] == a[1..] + b;
      assert forall c :: c in a[1..] ==> c in a;
      IndexOfEAfter(a[1..], b);
    }
  }

  /** Removing the point from a printed significand gives back its digits. */
  lemma DropPointAfterFirst(ds: seq<char>)
    requires AllDigits(ds) && ds != []
    ensures DropPoint(PointAfterFirst(ds)) == ds
    ensures 'E' !in PointAfterFirst(ds)
  {
    var m := PointAfterFirst(ds);
    if |ds| >= 2 {
      assert m[..1] + m[2..] == ds[..1] + ds[1..];
      assert ds[..1] + ds[1..] == ds;
    } else {
      assert |m| < 3;
    }
    assert forall i :: 0 <= i < |m| ==> m[i] == '.' || IsDigit(m[i]) by {
      forall i | 0 <= i < |m| ensures m[i] == '.' || IsDigit(m[i]) {
        if |ds| >= 2 && i >= 2 {
          assert m[i] == ds[i - 1];
        }
      }
    }
  }

  /** Reading back what `to_chars` writes gives the significand and exponent it was given. */
  lemma ReadScientificRoundTrip(n: nat, e: int)
    ensures ReadScientific(Scientific(n, e)) == Some((n, e))
  {
    var ds := DecimalText(n);
    var x := e + NumDigits(n) - 1;
    var sig := SignificandText(n);
    var ex := ExponentText(x);
    DecimalTextShape(n);
    DecimalTextRoundTrip(n);
    DropPointAfterFirst(ds);
    ReadExponentRoundTrip(x);
    SplitAtE(sig, ex);
  }

  /** A text made of an E-free part and a part starting with 'E' splits at that 'E'. */
  lemma SplitAtE(a: seq<char>, b: seq<char>)
    requires 'E' !in a && b != [] && b[0] == 'E'
    ensures IndexOfE(a + b) == |a|
    ensures (a + b)[..|a|] == a && (a + b)[|a| + 1..] == b[1..]
  {
    IndexOfEAfter(a, b);
  }

  // ---------------------------------------------------------------------
  // Output sizes
  // ---------------------------------------------------------------------

  /** A float's text, at most 9 digits and a two-digit exponent, takes at most 14 characters. */
  lemma FloatTextLength(s: nat, e: int)
    requires s < 10_0000_0000 && -100 < e + NumDigits(s) - 1 < 100
    ensures |Scientific(s, e)| <= 14
  {
    assert Pow10(9) == 10_0000_0000;
    assert Pow10(2) == 100;
    NumDigitsAtMost(s, 9);
    NumDigitsAtMost(Magnitude(e + NumDigits(s) - 1), 2);
    SignificandLength(s);
  }

  /** A double's text, at most 17 digits and a three-digit exponent, takes at most 23 characters. */
  lemma DoubleTextLength(s: nat, e: int)
    requires s < 1_0000_0000_0000_0000_0 && -1000 < e + NumDigits(s) - 1 < 1000
    ensures |Scientific(s, e)| <= 23
  {
    Pow10Add(8, 9);
    assert Pow10(8) == 1_0000_0000;
    assert Pow10(9) == 10_0000_0000;
    assert Pow10(17) == 1_0000_0000_0000_0000_0;
    assert Pow10(3) == 1000;
    NumDigitsAtMost(s, 17);
    NumDigitsAtMost(Magnitude(e + NumDigits(s) - 1), 3);
    SignificandLength(s);
  }
}
