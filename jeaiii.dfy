/**
 * The constant digit-pair table and the fixed-point reciprocals of the
 * jeaiii digit generator used by `to_chars` in
 * src/libraries/format/implementations/ftoa_dragonbox.cpp.
 *
 * For an n of at most m+2 digits the code finds y with
 * floor(10^m * y / 2^32) == n (Approx(y, n, m, 2^32) below).  Then
 * y / 2^32 is the leading one or two digits, and each following step
 * y := (y mod 2^32) * 100 moves the next two digits into the high word.
 */
module Jeaiii {
  import opened Arith
  import opened Decimal

  /** radix_100_table: the ASCII pairs "00" .. "99"; one constant per line of the C++ initialiser. */
  const Line0: seq<char> := ['0', '0', '0', '1', '0', '2', '0', '3', '0', '4']
  const Line1: seq<char> := ['0', '5', '0', '6', '0', '7', '0', '8', '0', '9']
  const Line2: seq<char> := ['1', '0', '1', '1', '1', '2', '1', '3', '1', '4']
  const Line3: seq<char> := ['1', '5', '1', '6', '1', '7', '1', '8', '1', '9']
  const Line4: seq<char> := ['2', '0', '2', '1', '2', '2', '2', '3', '2', '4']
  const Line5: seq<char> := ['2', '5', '2', '6', '2', '7', '2', '8', '2', '9']
  const Line6: seq<char> := ['3', '0', '3', '1', '3', '2', '3', '3', '3', '4']
  const Line7: seq<char> := ['3', '5', '3', '6', '3', '7', '3', '8', '3', '9']
  const Line8: seq<char> := ['4', '0', '4', '1', '4', '2', '4', '3', '4', '4']
  const Line9: seq<char> := ['4', '5', '4', '6', '4', '7', '4', '8', '4', '9']
  const Line10: seq<char> := ['5', '0', '5', '1', '5', '2', '5', '3', '5', '4']
  const Line11: seq<char> := ['5', '5', '5', '6', '5', '7', '5', '8', '5', '9']
  const Line12: seq<char> := ['6', '0', '6', '1', '6', '2', '6', '3', '6', '4']
  const Line13: seq<char> := ['6', '5', '6', '6', '6', '7', '6', '8', '6', '9']
  const Line14: seq<char> := ['7', '0', '7', '1', '7', '2', '7', '3', '7', '4']
  const Line15: seq<char> := ['7', '5', '7', '6', '7', '7', '7', '8', '7', '9']
  const Line16: seq<char> := ['8', '0', '8', '1', '8', '2', '8', '3', '8', '4']
  const Line17: seq<char> := ['8', '5', '8', '6', '8', '7', '8', '8', '8', '9']
  const Line18: seq<char> := ['9', '0', '9', '1', '9', '2', '9', '3', '9', '4']
  const Line19: seq<char> := ['9', '5', '9', '6', '9', '7', '9', '8', '9', '9']

  /** The whole table: its twenty lines in order, 200 characters. */
  const Radix100: seq<char> :=
    Line0 + Line1 + Line2 + Line3 + Line4 + Line5 + Line6 + Line7 + Line8 + Line9 + Line10 + Line11 + Line12 + Line13 + Line14 + Line15 + Line16 + Line17 + Line18 + Line19

  /** t holds the two-digit texts of lo, lo + 1, .., lo + n - 1, one pair after the other. */
  ghost predicate PairsFrom(t: seq<char>, lo: nat, n: nat)
  {
    lo + n <= 100 && |t| == 2 * n &&
    forall j :: 0 <= j < n ==> t[2 * j] == DigitChar((lo + j) / 10) && t[2 * j + 1] == DigitChar((lo + j) % 10)
  }

  /** Source line r of the table, r in 0..19. */
  function Row(r: nat): (t: seq<char>)
    requires r < 20
  {
    if r == 0 then Line0
    else if r == 1 then Line1
    else if r == 2 then Line2
    else if r == 3 then Line3
    else if r == 4 then Line4
    else if r == 5 then Line5
    else if r == 6 then Line6
    else if r == 7 then Line7
    else if r == 8 then Line8
    else if r == 9 then Line9
    else if r == 10 then Line10
    else if r == 11 then Line11
    else if r == 12 then Line12
    else if r == 13 then Line13
    else if r == 14 then Line14
    else if r == 15 then Line15
    else if r == 16 then Line16
    else if r == 17 then Line17
    else if r == 18 then Line18
    else Line19
  }

  /** The first r rows of the table, concatenated. */
  function Rows(r: nat): seq<char>
    requires r <= 20
  {
    if r == 0 then [] else Rows(r - 1) + Row(r - 1)
  }

  lemma RowPairs(r: nat)
    requires r < 20
    ensures PairsFrom(Row(r), 5 * r, 5)
  {
    if r == 0 { Line0Pairs(); }
    else if r == 1 { Line1Pairs(); }
    else if r == 2 { Line2Pairs(); }
    else if r == 3 { Line3Pairs(); }
    else if r == 4 { Line4Pairs(); }
    else if r == 5 { Line5Pairs(); }
    else if r == 6 { Line6Pairs(); }
    else if r == 7 { Line7Pairs(); }
    else if r == 8 { Line8Pairs(); }
    else if r == 9 { Line9Pairs(); }
    else if r == 10 { Line10Pairs(); }
    else if r == 11 { Line11Pairs(); }
    else if r == 12 { Line12Pairs(); }
    else if r == 13 { Line13Pairs(); }
    else if r == 14 { Line14Pairs(); }
    else if r == 15 { Line15Pairs(); }
    else if r == 16 { Line16Pairs(); }
    else if r == 17 { Line17Pairs(); }
    else if r == 18 { Line18Pairs(); }
    else { Line19Pairs(); }
  }

  lemma {:induction false} RowsPairs(r: nat)
    requires r <= 20
    ensures PairsFrom(Rows(r), 0, 5 * r)
  {
    if r > 0 {
      RowsPairs(r - 1);
      RowPairs(r - 1);
      PairsFromConcat(Rows(r - 1), Row(r - 1), 0, 5 * (r - 1), 5);
    }
  }

  lemma RowsAreRadix100()
    ensures Rows(20) == Radix100
  {
    assert Rows(1) == Line0;
    assert Rows(2) == Rows(1) + Line1;
    assert Rows(3) == Rows(2) + Line2;
    assert Rows(4) == Rows(3) + Line3;
    assert Rows(5) == Rows(4) + Line4;
    assert Rows(6) == Rows(5) + Line5;
    assert Rows(7) == Rows(6) + Line6;
    assert Rows(8) == Rows(7) + Line7;
    assert Rows(9) == Rows(8) + Line8;
    assert Rows(10) == Rows(9) + Line9;
    assert Rows(11) == Rows(10) + Line10;
    assert Rows(12) == Rows(11) + Line11;
    assert Rows(13) == Rows(12) + Line12;
    assert Rows(14) == Rows(13) + Line13;
    assert Rows(15) == Rows(14) + Line14;
    assert Rows(16) == Rows(15) + Line15;
    assert Rows(17) == Rows(16) + Line16;
    assert Rows(18) == Rows(17) + Line17;
    assert Rows(19) == Rows(18) + Line18;
    assert Rows(20) == Rows(19) + Line19;
  }

  /** For every k in 0..99 the table holds the tens digit of k at 2k and the units digit at 2k+1. */
  lemma Radix100Pairs()
    ensures PairsFrom(Radix100, 0, 100)
  {
    RowsPairs(20);
    RowsAreRadix100();
  }

  /** Pairs for consecutive ranges concatenate. */
  lemma PairsFromConcat(a: seq<char>, b: seq<char>, lo: nat, n: nat, m: nat)
    requires PairsFrom(a, lo, n) && PairsFrom(b, lo + n, m)
    ensures PairsFrom(a + b, lo, n + m)
  {
    var t := a + b;
    forall j | 0 <= j < n + m
      ensures t[2 * j] == DigitChar((lo + j) / 10) && t[2 * j + 1] == DigitChar((lo + j) % 10)
    {
      if j >= n {
        assert t[2 * j] == b[2 * (j - n)] && t[2 * j + 1] == b[2 * (j - n) + 1];
      }
    }
  }

  lemma Line0Pairs()
    ensures PairsFrom(Line0, 0, 5)
  {
    forall j | 0 <= j < 5
      ensures Line0[2 * j] == DigitChar((0 + j) / 10) && Line0[2 * j + 1] == DigitChar((0 + j) % 10)
    {
      if j == 0 {} else if j == 1 {} else if j == 2 {} else if j == 3 {}
    }
  }

  lemma Line1Pairs()
    ensures PairsFrom(Line1, 5, 5)
  {
    forall j | 0 <= j < 5
      ensures Line1[2 * j] == DigitChar((5 + j) / 10) && Line1[2 * j + 1] == DigitChar((5 + j) % 10)
    {
      if j == 0 {} else if j == 1 {} else if j == 2 {} else if j == 3 {}
    }
  }

  lemma Line2Pairs()
    ensures PairsFrom(Line2, 10, 5)
  {
    forall j | 0 <= j < 5
      ensures Line2[2 * j] == DigitChar((10 + j) / 10) && Line2[2 * j + 1] == DigitChar((10 + j) % 10)
    {
      if j == 0 {} else if j == 1 {} else if j == 2 {} else if j == 3 {}
    }
  }

  lemma Line3Pairs()
    ensures PairsFrom(Line3, 15, 5)
  {
    forall j | 0 <= j < 5
      ensures Line3[2 * j] == DigitChar((15 + j) / 10) && Line3[2 * j + 1] == DigitChar((15 + j) % 10)
    {
      if j == 0 {} else if j == 1 {} else if j == 2 {} else if j == 3 {}
    }
  }

  lemma Line4Pairs()
    ensures PairsFrom(Line4, 20, 5)
  {
    forall j | 0 <= j < 5
      ensures Line4[2 * j] == DigitChar((20 + j) / 10) && Line4[2 * j + 1] == DigitChar((20 + j) % 10)
    {
      if j == 0 {} else if j == 1 {} else if j == 2 {} else if j == 3 {}
    }
  }

  lemma Line5Pairs()
    ensures PairsFrom(Line5, 25, 5)
  {
    forall j | 0 <= j < 5
      ensures Line5[2 * j] == DigitChar((25 + j) / 10) && Line5[2 * j + 1] == DigitChar((25 + j) % 10)
    {
      if j == 0 {} else if j == 1 {} else if j == 2 {} else if j == 3 {}
    }
  }

  lemma Line6Pairs()
    ensures PairsFrom(Line6, 30, 5)
  {
    forall j | 0 <= j < 5
      ensures Line6[2 * j] == DigitChar((30 + j) / 10) && Line6[2 * j + 1] == DigitChar((30 + j) % 10)
    {
      if j == 0 {} else if j == 1 {} else if j == 2 {} else if j == 3 {}
    }
  }

  lemma Line7Pairs()
    ensures PairsFrom(Line7, 35, 5)
  {
    forall j | 0 <= j < 5
      ensures Line7[2 * j] == DigitChar((35 + j) / 10) && Line7[2 * j + 1] == DigitChar((35 + j) % 10)
    {
      if j == 0 {} else if j == 1 {} else if j == 2 {} else if j == 3 {}
    }
  }

  lemma Line8Pairs()
    ensures PairsFrom(Line8, 40, 5)
  {
    forall j | 0 <= j < 5
      ensures Line8[2 * j] == DigitChar((40 + j) / 10) && Line8[2 * j + 1] == DigitChar((40 + j) % 10)
    {
      if j == 0 {} else if j == 1 {} else if j == 2 {} else if j == 3 {}
    }
  }

  lemma Line9Pairs()
    ensures PairsFrom(Line9, 45, 5)
  {
    forall j | 0 <= j < 5
      ensures Line9[2 * j] == DigitChar((45 + j) / 10) && Line9[2 * j + 1] == DigitChar((45 + j) % 10)
    {
      if j == 0 {} else if j == 1 {} else if j == 2 {} else if j == 3 {}
    }
  }

  lemma Line10Pairs()
    ensures PairsFrom(Line10, 50, 5)
  {
    forall j | 0 <= j < 5
      ensures Line10[2 * j] == DigitChar((50 + j) / 10) && Line10[2 * j + 1] == DigitChar((50 + j) % 10)
    {
      if j == 0 {} else if j == 1 {} else if j == 2 {} else if j == 3 {}
    }
  }

  lemma Line11Pairs()
    ensures PairsFrom(Line11, 55, 5)
  {
    forall j | 0 <= j < 5
      ensures Line11[2 * j] == DigitChar((55 + j) / 10) && Line11[2 * j + 1] == DigitChar((55 + j) % 10)
    {
      if j == 0 {} else if j == 1 {} else if j == 2 {} else if j == 3 {}
    }
  }

  lemma Line12Pairs()
    ensures PairsFrom(Line12, 60, 5)
  {
    forall j | 0 <= j < 5
      ensures Line12[2 * j] == DigitChar((60 + j) / 10) && Line12[2 * j + 1] == DigitChar((60 + j) % 10)
    {
      if j == 0 {} else if j == 1 {} else if j == 2 {} else if j == 3 {}
    }
  }

  lemma Line13Pairs()
    ensures PairsFrom(Line13, 65, 5)
  {
    forall j | 0 <= j < 5
      ensures Line13[2 * j] == DigitChar((65 + j) / 10) && Line13[2 * j + 1] == DigitChar((65 + j) % 10)
    {
      if j == 0 {} else if j == 1 {} else if j == 2 {} else if j == 3 {}
    }
  }

  lemma Line14Pairs()
    ensures PairsFrom(Line14, 70, 5)
  {
    forall j | 0 <= j < 5
      ensures Line14[2 * j] == DigitChar((70 + j) / 10) && Line14[2 * j + 1] == DigitChar((70 + j) % 10)
    {
      if j == 0 {} else if j == 1 {} else if j == 2 {} else if j == 3 {}
    }
  }

  lemma Line15Pairs()
    ensures PairsFrom(Line15, 75, 5)
  {
    forall j | 0 <= j < 5
      ensures Line15[2 * j] == DigitChar((75 + j) / 10) && Line15[2 * j + 1] == DigitChar((75 + j) % 10)
    {
      if j == 0 {} else if j == 1 {} else if j == 2 {} else if j == 3 {}
    }
  }

  lemma Line16Pairs()
    ensures PairsFrom(Line16, 80, 5)
  {
    forall j | 0 <= j < 5
      ensures Line16[2 * j] == DigitChar((80 + j) / 10) && Line16[2 * j + 1] == DigitChar((80 + j) % 10)
    {
      if j == 0 {} else if j == 1 {} else if j == 2 {} else if j == 3 {}
    }
  }

  lemma Line17Pairs()
    ensures PairsFrom(Line17, 85, 5)
  {
    forall j | 0 <= j < 5
      ensures Line17[2 * j] == DigitChar((85 + j) / 10) && Line17[2 * j + 1] == DigitChar((85 + j) % 10)
    {
      if j == 0 {} else if j == 1 {} else if j == 2 {} else if j == 3 {}
    }
  }

  lemma Line18Pairs()
    ensures PairsFrom(Line18, 90, 5)
  {
    forall j | 0 <= j < 5
      ensures Line18[2 * j] == DigitChar((90 + j) / 10) && Line18[2 * j + 1] == DigitChar((90 + j) % 10)
    {
      if j == 0 {} else if j == 1 {} else if j == 2 {} else if j == 3 {}
    }
  }

  lemma Line19Pairs()
    ensures PairsFrom(Line19, 95, 5)
  {
    forall j | 0 <= j < 5
      ensures Line19[2 * j] == DigitChar((95 + j) / 10) && Line19[2 * j + 1] == DigitChar((95 + j) % 10)
    {
      if j == 0 {} else if j == 1 {} else if j == 2 {} else if j == 3 {}
    }
  }

  /** The table entry for k is k's text padded to two digits. */
  lemma TablePair(k: nat)
    requires k < 100
    ensures [Radix100[2 * k], Radix100[2 * k + 1]] == Padded(k, 2)
  {
    Radix100Pairs();
    var tens, units := Radix100[2 * k], Radix100[2 * k + 1];
    assert tens == DigitChar(k / 10) && units == DigitChar(k % 10);
    PaddedTwo(k);
  }

  lemma PaddedTwo(k: nat)
    requires k < 100
    ensures Padded(k, 2) == [DigitChar(k / 10), DigitChar(k % 10)]
  {
    var q := k / 10;
    DivBelow(k, 10, 10);
    DivModUnique(q, 10, 0, q);
    assert Padded(q, 1) == [DigitChar(q)];
    assert Padded(k, 2) == Padded(q, 1) + [DigitChar(k % 10)];
  }

  // ---------------------------------------------------------------------
  // The reciprocal constants
  // ---------------------------------------------------------------------

  /** 42949673 = ceil(2^32 / 100) gives the first two of 3 or 4 digits, with the rest as fraction. */
  lemma Reciprocal100(s: nat)
    requires s < 1_0000
    ensures 42949672 * 100 < TWO32 <= 42949673 * 100
    ensures Approx(s * 42949673, s, 2, TWO32)
    ensures (s * 42949673) / TWO32 == s / 100
  {
    assert Pow10(2) == 100;
    ApproxSplit(s * 42949673, s, 2, TWO32);
  }

  /** 429497 = ceil(2^32 / 10^4) gives the first two of 5 or 6 digits. */
  lemma Reciprocal1_0000(s: nat)
    requires s < 100_0000
    ensures 429496 * 1_0000 < TWO32 <= 429497 * 1_0000
    ensures Approx(s * 429497, s, 4, TWO32)
    ensures (s * 429497) / TWO32 == s / 1_0000
  {
    assert Pow10(4) == 1_0000;
    ApproxSplit(s * 429497, s, 4, TWO32);
  }

  /**
   * 281474978 = ceil(2^48 / 10^6) + 1, shifted right by 16, gives the first two
   * of 7 or 8 digits.  The quotient is exact for every s < 10^8; the fraction is
   * exact once s has 7 digits (a zero-padded block needs the +1 bias of
   * BiasedReciprocal100_0000).
   */
  lemma Reciprocal100_0000(s: nat)
    requires s < 1_0000_0000
    ensures (281474978 - 2) * 100_0000 < 0x1_0000_0000_0000 <= (281474978 - 1) * 100_0000
    ensures (s * 281474978) / 0x1_0000_0000_0000 == s / 100_0000
    ensures s >= 100_0000 ==> Approx((s * 281474978) / TWO16, s, 6, TWO32)
  {
    if s >= 100_0000 {
      assert Pow10(6) == 100_0000;
      var y := (s * 281474978) / TWO16;
      assert y * TWO16 <= s * 281474978 < y * TWO16 + TWO16;
      assert Approx(y, s, 6, TWO32);
      ApproxSplit(y, s, 6, TWO32);
      DivDiv(s * 281474978, TWO16, TWO32);
    }
  }

  /**
   * 1441151882 = ceil(2^57 / 10^8) + 1, shifted right by 25, gives the first of
   * 9 digits.  The quotient is exact for every s < 10^9, the fraction once s has
   * 9 digits.
   */
  lemma Reciprocal1_0000_0000(s: nat)
    requires s < 10_0000_0000
    ensures (1441151882 - 2) * 1_0000_0000 < 0x200_0000_0000_0000 <= (1441151882 - 1) * 1_0000_0000
    ensures (s * 1441151882) / 0x200_0000_0000_0000 == s / 1_0000_0000
    ensures s >= 1_0000_0000 ==> Approx((s * 1441151882) / TWO25, s, 8, TWO32)
  {
    if s >= 1_0000_0000 {
      assert Pow10(8) == 1_0000_0000;
      var y := (s * 1441151882) / TWO25;
      assert y * TWO25 <= s * 1441151882 < y * TWO25 + TWO25;
      assert Approx(y, s, 8, TWO32);
      ApproxSplit(y, s, 8, TWO32);
      DivDiv(s * 1441151882, TWO25, TWO32);
    }
  }

  /**
   * The second block of a double: with the `+1` bias the 6-place fraction is
   * exact for every block below 10^8, including zero-padded small ones.
   */
  lemma BiasedReciprocal100_0000(b: nat)
    requires b < 1_0000_0000
    ensures Approx((b * 281474978) / TWO16 + 1, b, 6, TWO32)
  {
    assert Pow10(6) == 100_0000;
    var y := (b * 281474978) / TWO16;
    assert y * TWO16 <= b * 281474978 < y * TWO16 + TWO16;
  }

  /** Without the bias the block 00000001 would come out as 00000000. */
  lemma UnbiasedSecondBlockFails()
    ensures !Approx((1 * 281474978) / TWO16, 1, 6, TWO32)
    ensures ((1 * 281474978) / TWO16) * 100_0000 / TWO32 == 0
  {
    assert Pow10(6) == 100_0000;
  }

  /**
   * 6554 = ceil(2^16 / 10): for an exponent below 2^14 the high half of e * 6554
   * is e / 10, and the low 16 bits times 10 (times 5, shifted by 15) give e % 10.
   */
  lemma ExponentReciprocal(e: nat)
    requires e < 0x4000
    ensures 6553 * 10 < TWO16 <= 6554 * 10
    ensures (e * 6554) / TWO16 == e / 10
    ensures ((e * 6554) % TWO16) * 5 / TWO15 == e % 10
  {
    assert Pow10(1) == 10;
    assert Approx(e * 6554, e, 1, TWO16);
    ApproxSplit(e * 6554, e, 1, TWO16);
    var low := (e * 6554) % TWO16;
    assert Approx(low, e % 10, 1, TWO16);
    ApproxIsFloor(low, e % 10, 1, TWO16);
    assert (low * 10) / TWO16 == e % 10;
    assert low * 5 / TWO15 == (low * 10) / TWO16;
  }

  /**
   * One step of keeping the low 32 bits of prod and multiplying by 100: the next two of the m remaining digits of w
   * appear in the high word, and the remaining m - 2 stay approximated.
   */
  lemma NextPair(prod: nat, w: nat, m: nat)
    requires m >= 2 && Approx(prod, w, m, TWO32)
    ensures (prod % TWO32) * 100 / TWO32 < 100
    ensures Approx((prod % TWO32) * 100, w % Pow10(m), m - 2, TWO32)
    ensures Padded(w, m) == Padded((prod % TWO32) * 100 / TWO32, 2) + Padded(w % Pow10(m), m - 2)
  {
    var L := prod % TWO32;
    ApproxSplit(prod, w, m, TWO32);
    ApproxTimes100(L, w % Pow10(m), m, TWO32);
    ApproxSplit(L * 100, w % Pow10(m), m - 2, TWO32);
    var P := Pow10(m - 2);
    Pow10Add(2, m - 2);
    assert Pow10(2) == 100;
    assert Pow10(m) == P * 100;
    ModDiv(w, P, 100);
    var k := L * 100 / TWO32;
    assert k == (w / P) % 100;
    PaddedSplit(w, 2, m - 2);
    PaddedMod(DropDigits(w, m - 2), 2);
    PaddedMod(w, m - 2);
    PaddedMod(w % Pow10(m), m - 2);
  }

  /** The first step of a block: the high word is the leading pair of an m+2 digit value. */
  lemma FirstPair(prod: nat, w: nat, m: nat)
    requires Approx(prod, w, m, TWO32) && w < Pow10(m + 2)
    ensures prod / TWO32 < 100
    ensures Padded(w, m + 2) == Padded(prod / TWO32, 2) + Padded(w, m)
  {
    ApproxSplit(prod, w, m, TWO32);
    Pow10Add(2, m);
    assert Pow10(2) == 100;
    DivBelow(w, Pow10(m), 100);
    PaddedSplit(w, 2, m);
  }
}
