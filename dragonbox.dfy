/**
 * The output stage of the Dragonbox float-to-string conversion
 * (src/libraries/format/implementations/ftoa_dragonbox.cpp): given the decimal
 * significand and exponent that the shortest-representation search produced,
 * write `d[.ddd]E[-]x` into a character buffer, where x is the exponent of the
 * first digit.
 *
 * The C++ functions advance a `char*& buffer` and an `int& exponent` in place;
 * here the buffer is an `array<char>` with an index, and the updated index and
 * exponent are returned.
 */
module Dragonbox {
  import opened Arith
  import opened Decimal
  import opened Jeaiii
  import opened Notation

  // ---------------------------------------------------------------------
  // How the leading one or two digits are laid out
  // ---------------------------------------------------------------------

  /** A value whose digits above the last m form a single digit d prints as "d." then the last m digits. */
  lemma LeadingDigit(s: nat, m: nat)
    requires m >= 1 && s >= Pow10(m) && DropDigits(s, m) < 10
    ensures NumDigits(s) == m + 1
    ensures SignificandText(s) == [DigitChar(DropDigits(s, m)), '.'] + Padded(s, m)
  {
    NumDigitsDiv(s, m);
    TextSplit(s, m);
    PointAfterFirstLead(DigitChar(DropDigits(s, m)), Padded(s, m));
  }

  /** A value whose digits above the last m form a pair t prints as "t0.t1" then the last m digits. */
  lemma LeadingPair(s: nat, m: nat)
    requires s >= Pow10(m) && 10 <= DropDigits(s, m) < 100
    ensures NumDigits(s) == m + 2
    ensures SignificandText(s) == PointAfterFirst(Padded(DropDigits(s, m), 2)) + Padded(s, m)
  {
    var t := DropDigits(s, m);
    NumDigitsDiv(s, m);
    assert Pow10(1) == 10 && Pow10(2) == 100;
    NumDigitsUnique(t, 2);
    TextSplit(s, m);
    TextIsPadded(t, 2);
    PointAfterFirstAppend(Padded(t, 2), Padded(s, m));
  }

  // ---------------------------------------------------------------------
  // Writing into the buffer
  // ---------------------------------------------------------------------

  /** A two-byte copy from the table at offset 2k: the two digits of k land at buf[at] and buf[at + 1]. */
  method CopyPair(buf: array<char>, at: nat, k: nat)
    requires k < 100 && at + 2 <= buf.Length
    modifies buf
    ensures buf[..] == Splice(old(buf[..]), at, Padded(k, 2))
  {
    TablePair(k);
    buf[at] := Radix100[2 * k];
    buf[at + 1] := Radix100[2 * k + 1];
    assert buf[..] == Splice(old(buf[..]), at, [Radix100[2 * k], Radix100[2 * k + 1]]);
  }

  /**
   * Truncating prod to 32 bits, multiplying by 100 and copying the pair in the high word:
   * with prod approximating the m remaining digits of w, this writes the first
   * two of them and leaves the other m - 2 approximated.
   */
  method CopyNextPair(buf: array<char>, at: nat, prod: u64, ghost w: nat, ghost m: nat) returns (next: u64)
    requires m >= 2 && Approx(prod as int, w, m, TWO32) && at + 2 <= buf.Length
    modifies buf
    ensures Approx(next as int, w % Pow10(m), m - 2, TWO32)
    ensures buf[..] == Splice(old(buf[..]), at, Padded(w, m)[..2])
    ensures Padded(w, m) == Padded(w, m)[..2] + Padded(w % Pow10(m), m - 2)
  {
    NextPair(prod as int, w, m);
    next := (prod % TWO32 as u64) * 100;
    CopyPair(buf, at, (next / TWO32 as u64) as nat);
  }

  /** A leading single digit d, then the decimal point. */
  method WriteLeadingDigit(buf: array<char>, at: nat, d: nat)
    requires d < 10 && at + 2 <= buf.Length
    modifies buf
    ensures buf[..] == Splice(old(buf[..]), at, [DigitChar(d), '.'])
  {
    buf[at] := DigitChar(d);
    buf[at + 1] := '.';
    assert buf[..] == Splice(old(buf[..]), at, [DigitChar(d), '.']);
  }

  /** A leading pair t read from the table, with the decimal point between its two digits. */
  method WriteLeadingPair(buf: array<char>, at: nat, t: nat)
    requires t < 100 && at + 3 <= buf.Length
    modifies buf
    ensures buf[..] == Splice(old(buf[..]), at, PointAfterFirst(Padded(t, 2)))
  {
    TablePair(t);
    buf[at] := Radix100[2 * t];
    buf[at + 1] := '.';
    buf[at + 2] := Radix100[2 * t + 1];
    PointAfterFirstLead(Radix100[2 * t], [Radix100[2 * t + 1]]);
    assert buf[..] == Splice(old(buf[..]), at, [Radix100[2 * t], '.', Radix100[2 * t + 1]]);
  }

  // ---------------------------------------------------------------------
  // print_9_digits
  // ---------------------------------------------------------------------

  /**
   * print_9_digits: writes the significand s (below 10^9) at pos, with a '.'
   * after its first digit when it has more than one, and moves the exponent
   * from that of the last digit to that of the first.  Nothing outside the
   * written span changes.
   */
  method PrintNineDigits(buf: array<char>, pos: nat, s: u32, exponent: int) returns (end: nat, newExponent: int)
    requires s < 10_0000_0000
    requires pos + |SignificandText(s as nat)| <= buf.Length
    modifies buf
    ensures end == pos + |SignificandText(s as nat)|
    ensures newExponent == exponent + NumDigits(s as nat) - 1
    ensures buf[..] == Splice(old(buf[..]), pos, SignificandText(s as nat))
  {
    if s < 100 {
      if s < 10 {
        // 1 digit.
        buf[pos] := DigitChar(s as nat);
        end := pos + 1;
        newExponent := exponent;
        SpliceOne(old(buf[..]), pos, DigitChar(s as nat));
      } else {
        // 2 digits.
        assert Pow10(0) == 1;
        LeadingPair(s as nat, 0);
        WriteLeadingPair(buf, pos, s as nat);
        end := pos + 3;
        newExponent := exponent + 1;
      }
    } else if s < 100_0000 {
      if s < 1_0000 {
        end, newExponent := PrintThreeOrFourDigits(buf, pos, s, exponent);
      } else {
        end, newExponent := PrintFiveOrSixDigits(buf, pos, s, exponent);
      }
    } else if s < 1_0000_0000 {
      end, newExponent := PrintSevenOrEightDigits(buf, pos, s, exponent);
    } else {
      end, newExponent := PrintNineDigitsExactly(buf, pos, s, exponent);
    }
  }

  /** The 3- and 4-digit branch of print_9_digits, with 42949673 = ceil(2^32 / 100). */
  method PrintThreeOrFourDigits(buf: array<char>, pos: nat, s: u32, exponent: int) returns (end: nat, newExponent: int)
    requires 100 <= s < 1_0000
    requires pos + |SignificandText(s as nat)| <= buf.Length
    modifies buf
    ensures end == pos + |SignificandText(s as nat)|
    ensures newExponent == exponent + NumDigits(s as nat) - 1
    ensures buf[..] == Splice(old(buf[..]), pos, SignificandText(s as nat))
  {
    ghost var n := s as nat;
    ghost var orig := buf[..];
    Reciprocal100(n);
    assert Pow10(2) == 100;
    var prod: u64 := (s as u64) * 42949673;
    var twoDigits := prod / TWO32 as u64;
    assert twoDigits as nat == DropDigits(n, 2);
    if twoDigits < 10 {
      // 3 digits.
      LeadingDigit(n, 2);
      WriteLeadingDigit(buf, pos, twoDigits as nat);
      newExponent := exponent + 2;
      prod := CopyNextPair(buf, pos + 2, prod, n, 2);
      SpliceSplice(orig, pos, [DigitChar(twoDigits as nat), '.'], Padded(n, 2));
      end := pos + 4;
    } else {
      // 4 digits.
      LeadingPair(n, 2);
      ghost var lead := PointAfterFirst(Padded(twoDigits as nat, 2));
      WriteLeadingPair(buf, pos, twoDigits as nat);
      newExponent := exponent + 3;
      prod := CopyNextPair(buf, pos + 3, prod, n, 2);
      SpliceSplice(orig, pos, lead, Padded(n, 2));
      end := pos + 5;
    }
  }

  /** The 5- and 6-digit branch of print_9_digits, with 429497 = ceil(2^32 / 10^4). */
  method PrintFiveOrSixDigits(buf: array<char>, pos: nat, s: u32, exponent: int) returns (end: nat, newExponent: int)
    requires 1_0000 <= s < 100_0000
    requires pos + |SignificandText(s as nat)| <= buf.Length
    modifies buf
    ensures end == pos + |SignificandText(s as nat)|
    ensures newExponent == exponent + NumDigits(s as nat) - 1
    ensures buf[..] == Splice(old(buf[..]), pos, SignificandText(s as nat))
  {
    ghost var n := s as nat;
    ghost var orig := buf[..];
    Reciprocal1_0000(n);
    assert Pow10(4) == 1_0000;
    var prod: u64 := (s as u64) * 429497;
    var twoDigits := prod / TWO32 as u64;
    assert twoDigits as nat == DropDigits(n, 4);
    if twoDigits < 10 {
      // 5 digits.
      LeadingDigit(n, 4);
      WriteLeadingDigit(buf, pos, twoDigits as nat);
      newExponent := exponent + 4;
      PrintFourDigits(buf, pos + 2, prod, n);
      SpliceSplice(orig, pos, [DigitChar(twoDigits as nat), '.'], Padded(n, 4));
      end := pos + 6;
    } else {
      // 6 digits.
      LeadingPair(n, 4);
      ghost var lead := PointAfterFirst(Padded(twoDigits as nat, 2));
      WriteLeadingPair(buf, pos, twoDigits as nat);
      newExponent := exponent + 5;
      PrintFourDigits(buf, pos + 3, prod, n);
      SpliceSplice(orig, pos, lead, Padded(n, 4));
      end := pos + 7;
    }
  }

  /** The 7- and 8-digit branch of print_9_digits, with 281474978 = ceil(2^48 / 10^6) + 1. */
  method PrintSevenOrEightDigits(buf: array<char>, pos: nat, s: u32, exponent: int) returns (end: nat, newExponent: int)
    requires 100_0000 <= s < 1_0000_0000
    requires pos + |SignificandText(s as nat)| <= buf.Length
    modifies buf
    ensures end == pos + |SignificandText(s as nat)|
    ensures newExponent == exponent + NumDigits(s as nat) - 1
    ensures buf[..] == Splice(old(buf[..]), pos, SignificandText(s as nat))
  {
    ghost var n := s as nat;
    ghost var orig := buf[..];
    Reciprocal100_0000(n);
    assert Pow10(6) == 100_0000;
    var prod: u64 := (s as u64) * 281474978;
    prod := prod / TWO16 as u64;
    var twoDigits := prod / TWO32 as u64;
    DivDiv(n * 281474978, TWO16, TWO32);
    assert twoDigits as nat == DropDigits(n, 6);
    if twoDigits < 10 {
      // 7 digits.
      LeadingDigit(n, 6);
      WriteLeadingDigit(buf, pos, twoDigits as nat);
      newExponent := exponent + 6;
      PrintSixDigits(buf, pos + 2, prod, n);
      SpliceSplice(orig, pos, [DigitChar(twoDigits as nat), '.'], Padded(n, 6));
      end := pos + 8;
    } else {
      // 8 digits.
      LeadingPair(n, 6);
      ghost var lead := PointAfterFirst(Padded(twoDigits as nat, 2));
      WriteLeadingPair(buf, pos, twoDigits as nat);
      newExponent := exponent + 7;
      PrintSixDigits(buf, pos + 3, prod, n);
      SpliceSplice(orig, pos, lead, Padded(n, 6));
      end := pos + 9;
    }
  }

  /** The 9-digit branch of print_9_digits, with 1441151882 = ceil(2^57 / 10^8) + 1. */
  method PrintNineDigitsExactly(buf: array<char>, pos: nat, s: u32, exponent: int) returns (end: nat, newExponent: int)
    requires 1_0000_0000 <= s < 10_0000_0000
    requires pos + |SignificandText(s as nat)| <= buf.Length
    modifies buf
    ensures end == pos + |SignificandText(s as nat)|
    ensures newExponent == exponent + NumDigits(s as nat) - 1
    ensures buf[..] == Splice(old(buf[..]), pos, SignificandText(s as nat))
  {
    ghost var n := s as nat;
    ghost var orig := buf[..];
    Reciprocal1_0000_0000(n);
    assert Pow10(8) == 1_0000_0000;
    var prod: u64 := (s as u64) * 1441151882;
    prod := prod / TWO25 as u64;
    var first := prod / TWO32 as u64;
    DivDiv(n * 1441151882, TWO25, TWO32);
    DivBelow(n, 1_0000_0000, 10);
    assert first as nat == DropDigits(n, 8);
    LeadingDigit(n, 8);
    WriteLeadingDigit(buf, pos, first as nat);
    newExponent := exponent + 8;
    ghost var afterLead := buf[..];
    prod := CopyNextPair(buf, pos + 2, prod, n, 8);
    PrintSixDigits(buf, pos + 4, prod, n % Pow10(8));
    SpliceSplice(afterLead, pos + 2, Padded(n, 8)[..2], Padded(n % Pow10(8), 6));
    SpliceSplice(orig, pos, [DigitChar(first as nat), '.'], Padded(n, 8));
    end := pos + 10;
  }

  /** Two truncate-and-multiply-by-100 steps: prod approximates the last four digits of w. */
  method PrintFourDigits(buf: array<char>, at: nat, prod: u64, ghost w: nat)
    requires Approx(prod as int, w, 4, TWO32) && at + 4 <= buf.Length
    modifies buf
    ensures buf[..] == Splice(old(buf[..]), at, Padded(w, 4))
  {
    ghost var orig := buf[..];
    var p := CopyNextPair(buf, at, prod, w, 4);
    ghost var w2 := w % Pow10(4);
    p := CopyNextPair(buf, at + 2, p, w2, 2);
    SpliceSplice(orig, at, Padded(w, 4)[..2], Padded(w2, 2)[..2]);
  }

  /**
   * The last three truncate-and-multiply-by-100 steps that the 7-, 8- and
   * 9-digit branches share: prod approximates the last six digits of w.
   */
  method PrintSixDigits(buf: array<char>, at: nat, prod: u64, ghost w: nat)
    requires Approx(prod as int, w, 6, TWO32) && at + 6 <= buf.Length
    modifies buf
    ensures buf[..] == Splice(old(buf[..]), at, Padded(w, 6))
  {
    ghost var orig := buf[..];
    var p := CopyNextPair(buf, at, prod, w, 6);
    ghost var afterFirst := buf[..];
    ghost var w4 := w % Pow10(6);
    p := CopyNextPair(buf, at + 2, p, w4, 4);
    ghost var w2 := w4 % Pow10(4);
    p := CopyNextPair(buf, at + 4, p, w2, 2);
    SpliceSplice(afterFirst, at + 2, Padded(w4, 4)[..2], Padded(w2, 2)[..2]);
    SpliceSplice(orig, at, Padded(w, 6)[..2], Padded(w4, 4));
  }

  // ---------------------------------------------------------------------
  // The exponent suffix
  // ---------------------------------------------------------------------

  /**
   * The marker shared by both `to_chars`: "E-" (a two-byte copy) and the
   * exponent negated when it is negative, "E" otherwise.
   */
  method PrintExponentMarker(buf: array<char>, at: nat, exponent: int) returns (end: nat, magnitude: int)
    requires at + |ExponentMarker(exponent)| <= buf.Length
    modifies buf
    ensures end == at + |ExponentMarker(exponent)|
    ensures magnitude == Magnitude(exponent)
    ensures buf[..] == Splice(old(buf[..]), at, ExponentMarker(exponent))
  {
    if exponent < 0 {
      buf[at] := 'E';
      buf[at + 1] := '-';
      end := at + 2;
      magnitude := -exponent;
      assert buf[..] == Splice(old(buf[..]), at, ['E', '-']);
    } else {
      buf[at] := 'E';
      end := at + 1;
      magnitude := exponent;
      SpliceOne(old(buf[..]), at, 'E');
    }
  }

  /** The digits of a float's exponent magnitude (below 100): one digit, or a pair from the table. */
  method PrintTwoExponentDigits(buf: array<char>, at: nat, e: int) returns (end: nat)
    requires 0 <= e < 100 && at + NumDigits(e) <= buf.Length
    modifies buf
    ensures end == at + NumDigits(e)
    ensures buf[..] == Splice(old(buf[..]), at, DecimalText(e))
  {
    if e >= 10 {
      TextIsPadded(e, 2);
      CopyPair(buf, at, e);
      end := at + 2;
    } else {
      buf[at] := DigitChar(e);
      SpliceOne(old(buf[..]), at, DigitChar(e));
      end := at + 1;
    }
  }

  /**
   * The digits of a double's exponent magnitude (below 1000).  Three digits use
   * e * 6554 for d1 = e / 10 and d2 = e % 10: d1 as a pair from the table, then d2.
   */
  method PrintThreeExponentDigits(buf: array<char>, at: nat, e: int) returns (end: nat)
    requires 0 <= e < 1000 && at + NumDigits(e) <= buf.Length
    modifies buf
    ensures end == at + NumDigits(e)
    ensures buf[..] == Splice(old(buf[..]), at, DecimalText(e))
  {
    if e >= 100 {
      ExponentReciprocal(e);
      var prod: u32 := (e as u32) * 6554;
      var d1 := prod / TWO16 as u32;
      prod := (prod % TWO16 as u32) * 5;
      var d2 := prod / TWO15 as u32;
      TextIsPadded(e / 10, 2);
      assert DecimalText(e) == Padded(d1 as nat, 2) + [DigitChar(d2 as nat)];
      CopyPair(buf, at, d1 as nat);
      ghost var afterPair := buf[..];
      buf[at + 2] := DigitChar(d2 as nat);
      SpliceOne(afterPair, at + 2, DigitChar(d2 as nat));
      SpliceSplice(old(buf[..]), at, Padded(d1 as nat, 2), [DigitChar(d2 as nat)]);
      end := at + 3;
    } else if e >= 10 {
      TextIsPadded(e, 2);
      CopyPair(buf, at, e);
      end := at + 2;
    } else {
      buf[at] := DigitChar(e);
      SpliceOne(old(buf[..]), at, DigitChar(e));
      end := at + 1;
    }
  }

  // ---------------------------------------------------------------------
  // to_chars
  // ---------------------------------------------------------------------

  /**
   * to_chars<float>: the text of s * 10^exponent.  The exponent printed, that of
   * the first digit, must have at most two digits.
   */
  method ToCharsFloat(buf: array<char>, pos: nat, s: u32, exponent: int) returns (end: nat)
    requires s < 10_0000_0000
    requires -100 < exponent + NumDigits(s as nat) - 1 < 100
    requires pos + |Scientific(s as nat, exponent)| <= buf.Length
    modifies buf
    ensures end == pos + |Scientific(s as nat, exponent)|
    ensures buf[..] == Splice(old(buf[..]), pos, Scientific(s as nat, exponent))
  {
    ghost var orig := buf[..];
    var e: int;
    end, e := PrintNineDigits(buf, pos, s, exponent);
    ghost var x := e;
    end := PrintFloatExponent(buf, end, e);
    SpliceSplice(orig, pos, SignificandText(s as nat), ExponentText(x));
  }

  /** The exponent of to_chars<float> (ftoa_dragonbox.cpp:224-239), written after its significand. */
  method PrintFloatExponent(buf: array<char>, at: nat, exponent: int) returns (end: nat)
    requires -100 < exponent < 100 && at + |ExponentText(exponent)| <= buf.Length
    modifies buf
    ensures end == at + |ExponentText(exponent)|
    ensures buf[..] == Splice(old(buf[..]), at, ExponentText(exponent))
  {
    ghost var orig := buf[..];
    var e: int;
    end, e := PrintExponentMarker(buf, at, exponent);
    end := PrintTwoExponentDigits(buf, end, e);
    SpliceSplice(orig, at, ExponentMarker(exponent), DecimalText(e));
  }

  /** A significand of ten or more digits has a leading part of two or more digits above its last 8. */
  lemma LeadingBlockDigits(sig: nat)
    requires sig >= 10_0000_0000
    ensures 10 <= DropDigits(sig, 8)
    ensures NumDigits(sig) == NumDigits(DropDigits(sig, 8)) + 8
  {
    assert Pow10(8) == 1_0000_0000;
    assert Pow10(9) == 10_0000_0000;
    NumDigitsDiv(sig, 8);
    NumDigitsBounds(sig);
    if NumDigits(sig) <= 9 {
      Pow10Monotone(NumDigits(sig), 9);
      assert false;
    }
  }

  /** A significand of ten or more digits prints as its leading part, then its last 8 digits. */
  lemma SignificandSplit(sig: nat)
    requires sig >= 10_0000_0000
    ensures 10 <= DropDigits(sig, 8) && sig % Pow10(8) < 1_0000_0000
    ensures NumDigits(sig) == NumDigits(DropDigits(sig, 8)) + 8
    ensures SignificandText(sig) == SignificandText(DropDigits(sig, 8)) + Padded(sig % Pow10(8), 8)
  {
    assert Pow10(8) == 1_0000_0000;
    LeadingBlockDigits(sig);
    TextSplit(sig, 8);
    PaddedMod(sig, 8);
    PointAfterFirstAppend(DecimalText(DropDigits(sig, 8)), Padded(sig, 8));
  }

  /** The 32-bit wrapping subtraction that forms second_block leaves the remainder modulo 10^8. */
  lemma SecondBlockIsRemainder(sig: nat)
    ensures ((sig % TWO32) - ((sig / 1_0000_0000) * 1_0000_0000) % TWO32) % TWO32 == sig % 1_0000_0000
  {
    var q := sig / 1_0000_0000;
    ModSub(sig, q * 1_0000_0000, TWO32);
    assert sig - q * 1_0000_0000 == sig % 1_0000_0000;
  }

  /** The second block of to_chars<double> (ftoa_dragonbox.cpp:267-283, less the exponent update): exactly 8 digits, zero-padded. */
  method PrintSecondBlock(buf: array<char>, at: nat, secondBlock: u32)
    requires secondBlock < 1_0000_0000 && at + 8 <= buf.Length
    modifies buf
    ensures buf[..] == Splice(old(buf[..]), at, Padded(secondBlock as nat, 8))
  {
    ghost var b := secondBlock as nat;
    ghost var orig := buf[..];
    BiasedReciprocal100_0000(b);
    assert Pow10(8) == 1_0000_0000;
    var prod: u64 := (secondBlock as u64) * 281474978;
    prod := prod / TWO16 as u64;
    prod := prod + 1;
    FirstPair(prod as int, b, 6);
    CopyPair(buf, at, (prod / TWO32 as u64) as nat);
    PrintSixDigits(buf, at + 2, prod, b);
    SpliceSplice(orig, at, Padded((prod / TWO32 as u64) as nat, 2), Padded(b, 6));
  }

  /**
   * The block split of to_chars<double> (ftoa_dragonbox.cpp:251-259):
   * first_block = significand / 10^8, and second_block the difference
   * significand - first_block * 10^8 formed in 32-bit arithmetic.
   */
  method SplitBlocks(significand: u64) returns (firstBlock: u32, secondBlock: u32)
    requires 10_0000_0000 <= significand < 1_0000_0000_0000_0000_0
    ensures firstBlock as nat == DropDigits(significand as nat, 8)
    ensures secondBlock as nat == significand as nat % Pow10(8)
  {
    ghost var sig := significand as nat;
    DivBelow(sig, 1_0000_0000, 10_0000_0000);
    firstBlock := (significand / 1_0000_0000) as u32;
    var low := (significand % TWO32 as u64) as u32;
    var scaled := ((firstBlock as int * 1_0000_0000) % TWO32) as u32;
    SecondBlockIsRemainder(sig);
    secondBlock := ((low as int - scaled as int) % TWO32) as u32;
    assert Pow10(8) == 1_0000_0000;
  }

  /**
   * The significand half of to_chars<double> (ftoa_dragonbox.cpp:248-284): a significand
   * below 10^9 is printed by print_9_digits alone; a longer one is split at
   * 10^8 into a leading block, printed the same way, and a trailing block of
   * exactly 8 zero-padded digits.
   */
  method PrintDoubleSignificand(buf: array<char>, pos: nat, significand: u64, exponent: int) returns (end: nat, newExponent: int)
    requires significand < 1_0000_0000_0000_0000_0
    requires pos + |SignificandText(significand as nat)| <= buf.Length
    modifies buf
    ensures end == pos + |SignificandText(significand as nat)|
    ensures newExponent == exponent + NumDigits(significand as nat) - 1
    ensures buf[..] == Splice(old(buf[..]), pos, SignificandText(significand as nat))
  {
    ghost var sig := significand as nat;
    ghost var orig := buf[..];
    var firstBlock: u32;
    var secondBlock: u32 := 0;
    var haveSecondBlock: bool;
    if significand < 10_0000_0000 {
      firstBlock := significand as u32;
      haveSecondBlock := false;
    } else {
      firstBlock, secondBlock := SplitBlocks(significand);
      haveSecondBlock := true;
      SignificandSplit(sig);
    }
    end, newExponent := PrintNineDigits(buf, pos, firstBlock, exponent);
    if haveSecondBlock {
      newExponent := newExponent + 8;
      PrintSecondBlock(buf, end, secondBlock);
      SpliceSplice(orig, pos, SignificandText(firstBlock as nat), Padded(secondBlock as nat, 8));
      end := end + 8;
    }
  }

  /**
   * to_chars<double>: the text of significand * 10^exponent, for a significand
   * of at most 17 digits.  The exponent printed must have at most three digits.
   */
  method ToCharsDouble(buf: array<char>, pos: nat, significand: u64, exponent: int) returns (end: nat)
    requires significand < 1_0000_0000_0000_0000_0
    requires -1000 < exponent + NumDigits(significand as nat) - 1 < 1000
    requires pos + |Scientific(significand as nat, exponent)| <= buf.Length
    modifies buf
    ensures end == pos + |Scientific(significand as nat, exponent)|
    ensures buf[..] == Splice(old(buf[..]), pos, Scientific(significand as nat, exponent))
  {
    ghost var orig := buf[..];
    var e: int;
    end, e := PrintDoubleSignificand(buf, pos, significand, exponent);
    ghost var x := e;
    end := PrintDoubleExponent(buf, end, e);
    SpliceSplice(orig, pos, SignificandText(significand as nat), ExponentText(x));
  }

  /** The exponent of to_chars<double> (ftoa_dragonbox.cpp:287-312), written after its significand. */
  method PrintDoubleExponent(buf: array<char>, at: nat, exponent: int) returns (end: nat)
    requires -1000 < exponent < 1000 && at + |ExponentText(exponent)| <= buf.Length
    modifies buf
    ensures end == at + |ExponentText(exponent)|
    ensures buf[..] == Splice(old(buf[..]), at, ExponentText(exponent))
  {
    ghost var orig := buf[..];
    var e: int;
    end, e := PrintExponentMarker(buf, at, exponent);
    end := PrintThreeExponentDigits(buf, end, e);
    SpliceSplice(orig, at, ExponentMarker(exponent), DecimalText(e));
  }
}
