# libCat: float printing, string helpers and `Result`, in Dafny

This project models three pieces of libCat, a freestanding C++ library.

- **The output stage of its Dragonbox float-to-string conversion.** This is
  `src/libraries/format/implementations/ftoa_dragonbox.cpp`. It starts from a
  decimal significand and exponent that the shortest-representation search
  has already produced. It writes `d[.ddd]E[-]x` into a character buffer,
  where x is the exponent of the first digit. The digits come from James
  Anhalt's ("jeaiii") method. A 32-bit reciprocal multiplication gives a
  fixed-point number whose high word holds the leading digits. Each "keep the
  low 32 bits, times 100" step then moves the next two digits into the high
  word. A 200-character table turns each two-digit value into its two ASCII
  digits.
- **The scalar helpers of `src/libraries/string/string.h`:**
  `string_length_as`, `copy_memory` and `is_aligned`.
- **`Error` and `Result<T>` of `src/result/result.hpp`.**

## Layout

| file | module | contents |
|---|---|---|
| `arith.dfy` | `Arith` | Machine widths (`u16`, `u32`, `u64`), powers of ten and division facts. Also `Approx`, the fixed-point relation `floor(x * 10^m / B) == v` behind every digit step. |
| `decimal.dfy` | `Decimal` | Digit characters and decimal text (plain, and zero-padded to k digits). Their round trips and block splits. `Splice`, the specification of writing a string into a buffer. |
| `notation.dfy` | `Notation` | The printed text as a function: `Scientific(n, e)`. A reader that parses the text back, and the round trip. |
| `jeaiii.dfy` | `Jeaiii` | The literal `radix_100_table`, with a proof that entry pair k is k's two digits. The reciprocal constants, and the `NextPair` step lemma. |
| `dragonbox.dfy` | `Dragonbox` | `print_9_digits`, `to_chars<float>` and `to_chars<double>` as methods over an `array<char>`. |
| `catstring.dfy` | `CatString` | `string_length_as` (a while loop), `copy_memory` (a for loop) and `is_aligned`. |
| `catresult.dfy` | `CatResult` | `Error` and `Result<T>` as datatypes, with their accessors. |

### How the printer is modelled

- **The buffer.** The C++ code advances a `char*&` buffer and an `int&`
  exponent. Each printing method instead takes an `array<char>` and a start
  index. The methods that stand for a whole C++ function or a whole section
  of one (`PrintNineDigits` and its branch methods, the exponent printers,
  `PrintDoubleSignificand` and both `ToChars` methods) return the end index
  and, where the source changes it, the new exponent. The small writers
  (`CopyPair`, `CopyNextPair`, `WriteLeadingDigit`, `WriteLeadingPair`,
  `PrintFourDigits`, `PrintSixDigits`, `PrintSecondBlock`) write a span of
  fixed length at the index they are given and return no index.
- **What each method promises.** Every printing method ensures
  `buf[..] == Splice(old(buf[..]), pos, T)` for the text T it writes, so
  nothing else in the buffer changes. The methods that return an end index
  also ensure its value, and their new exponent where they have one.
- **Machine arithmetic.** 64-bit products are `u64`. Every cast back to
  32 bits is written as `% 2^32`, and every shift as a division by a power of
  two. The `u64`/`u32` types make the verifier check that no intermediate
  value overflows.
- **`to_chars<double>`.** The source forms `second_block` with a 32-bit
  wrapping subtraction. The model writes that subtraction out modulo 2^32.
  `SecondBlockIsRemainder` proves that it yields the significand modulo 10^8.

## Model

| member | source | states |
|---|---|---|
| Jeaiii.Radix100Pairs | src/libraries/format/implementations/ftoa_dragonbox.cpp:33-54 | The 200-character table holds, for every k < 100, the tens digit of k at 2k and the units digit at 2k+1. |
| Jeaiii.RowPairs | src/libraries/format/implementations/ftoa_dragonbox.cpp:34-53 | Source line r of the table holds the pairs of 5r .. 5r+4. |
| Jeaiii.TablePair | src/libraries/format/implementations/ftoa_dragonbox.cpp:33-54 | The two table characters at 2k are the text of k, zero-padded to two digits. |
| Jeaiii.Reciprocal100 | src/libraries/format/implementations/ftoa_dragonbox.cpp:89-91 | 42949673 is ceil(2^32 / 100). For s < 10^4, the high word of s * 42949673 is s / 100, and the product approximates s with two decimal places. |
| Jeaiii.Reciprocal1_0000 | src/libraries/format/implementations/ftoa_dragonbox.cpp:116-118 | 429497 is ceil(2^32 / 10^4). For s < 10^6, the high word is s / 10^4 and the product approximates s with four places. |
| Jeaiii.Reciprocal100_0000 | src/libraries/format/implementations/ftoa_dragonbox.cpp:151-154 | 281474978 is ceil(2^48 / 10^6) + 1. For every s < 10^8 the product's bits above 48 are s / 10^6; for 7 or 8 digits the product shifted right by 16 approximates s with six places. |
| Jeaiii.Reciprocal1_0000_0000 | src/libraries/format/implementations/ftoa_dragonbox.cpp:191-194 | 1441151882 is ceil(2^57 / 10^8) + 1. For every s < 10^9 the product's bits above 57 are s / 10^8; for 9 digits the product shifted right by 25 approximates s with eight places. |
| Jeaiii.BiasedReciprocal100_0000 | src/libraries/format/implementations/ftoa_dragonbox.cpp:266-269 | With the +1 bias, the second block's product approximates every block b < 10^8 with six places. This includes zero-padded small blocks. |
| Jeaiii.UnbiasedSecondBlockFails | src/libraries/format/implementations/ftoa_dragonbox.cpp:266-269 | Without the +1, the block 00000001 would be read as 0 and print as 00000000. This is why the bias is there. |
| Jeaiii.ExponentReciprocal | src/libraries/format/implementations/ftoa_dragonbox.cpp:297-302 | 6554 is ceil(2^16 / 10). For an exponent below 2^14, the high half of e * 6554 is e / 10. The low 16 bits times 5, shifted right by 15, give e % 10. |
| Jeaiii.NextPair | src/libraries/format/implementations/ftoa_dragonbox.cpp:98-100 | One truncate-and-times-100 step: the high word is the next two of the m remaining digits, and the other m - 2 stay approximated. |
| Jeaiii.FirstPair | src/libraries/format/implementations/ftoa_dragonbox.cpp:267-273 | The high word of the first product is the leading pair of an (m+2)-digit block, zero-padded. |
| Dragonbox.LeadingDigit | src/libraries/format/implementations/ftoa_dragonbox.cpp:94-97 | When the part above the last m digits is one digit d, the significand text is `d.` followed by the last m digits, and there are m+1 digits. |
| Dragonbox.LeadingPair | src/libraries/format/implementations/ftoa_dragonbox.cpp:104-108 | When that part is a pair t0t1, the text is `t0.t1` followed by the last m digits, and there are m+2 digits. |
| Dragonbox.CopyPair | src/libraries/format/implementations/ftoa_dragonbox.cpp:99-100 | The two-byte copy from table offset 2k writes k's two digits at the index and changes nothing else. |
| Dragonbox.CopyNextPair | src/libraries/format/implementations/ftoa_dragonbox.cpp:98-100 | It writes the first two of the remaining m digits. It returns the product approximating the other m - 2. |
| Dragonbox.WriteLeadingDigit | src/libraries/format/implementations/ftoa_dragonbox.cpp:95-96 | It writes the digit and then the point. |
| Dragonbox.WriteLeadingPair | src/libraries/format/implementations/ftoa_dragonbox.cpp:79-81 | It writes the pair from the table, with the point between its digits. |
| Dragonbox.PrintNineDigits | src/libraries/format/implementations/ftoa_dragonbox.cpp:69-214 | For s < 10^9 it writes exactly `SignificandText(s)`: the digits, with a point after the first when there are two or more. The exponent grows by the digit count minus one, moving from the last digit to the first. |
| Dragonbox.PrintThreeOrFourDigits | src/libraries/format/implementations/ftoa_dragonbox.cpp:86-113 | Same contract, for 100 <= s < 10^4. The 3-digit branch adds 2 to the exponent and the 4-digit branch adds 3. |
| Dragonbox.PrintFiveOrSixDigits | src/libraries/format/implementations/ftoa_dragonbox.cpp:114-147 | Same contract, for 10^4 <= s < 10^6. |
| Dragonbox.PrintSevenOrEightDigits | src/libraries/format/implementations/ftoa_dragonbox.cpp:149-188 | Same contract, for 10^6 <= s < 10^8. |
| Dragonbox.PrintNineDigitsExactly | src/libraries/format/implementations/ftoa_dragonbox.cpp:189-211 | Same contract, for 10^8 <= s < 10^9. |
| Dragonbox.PrintFourDigits | src/libraries/format/implementations/ftoa_dragonbox.cpp:125-130 | From a product approximating w with four places, it writes w's last four digits, zero-padded. |
| Dragonbox.PrintSixDigits | src/libraries/format/implementations/ftoa_dragonbox.cpp:161-169 | From a product approximating w with six places, it writes w's last six digits, zero-padded. |
| Dragonbox.PrintExponentMarker | src/libraries/format/implementations/ftoa_dragonbox.cpp:224-231 | It writes `E-` and negates a negative exponent, or writes `E` alone. |
| Dragonbox.PrintTwoExponentDigits | src/libraries/format/implementations/ftoa_dragonbox.cpp:233-239 | For a magnitude below 100, it writes its decimal text without leading zeros. |
| Dragonbox.PrintFloatExponent | src/libraries/format/implementations/ftoa_dragonbox.cpp:224-239 | It writes `ExponentText(x)`: the marker, then the magnitude's digits. |
| Dragonbox.ToCharsFloat | src/libraries/format/implementations/ftoa_dragonbox.cpp:216-242 | It writes exactly `Scientific(s, exponent)` and returns the index after it. Nothing outside that span changes. |
| Dragonbox.SplitBlocks | src/libraries/format/implementations/ftoa_dragonbox.cpp:251-259 | The first block is significand / 10^8. The second, formed with 32-bit wrap-around, is significand mod 10^8. |
| Dragonbox.SecondBlockIsRemainder | src/libraries/format/implementations/ftoa_dragonbox.cpp:256-257 | The wrapping 32-bit subtraction gives exactly the remainder modulo 10^8. |
| Dragonbox.LeadingBlockDigits | src/libraries/format/implementations/ftoa_dragonbox.cpp:251-255 | A significand of ten or more digits has a leading block of at least two digits, and 8 fewer digits than the significand. |
| Dragonbox.SignificandSplit | src/libraries/format/implementations/ftoa_dragonbox.cpp:261-284 | The text of a long significand is the text of its leading block, then its last 8 digits zero-padded. |
| Dragonbox.PrintSecondBlock | src/libraries/format/implementations/ftoa_dragonbox.cpp:265-284 | It writes the second block as exactly 8 zero-padded digits. |
| Dragonbox.PrintDoubleSignificand | src/libraries/format/implementations/ftoa_dragonbox.cpp:248-284 | For a significand below 10^17 it writes exactly `SignificandText(significand)`, and the exponent moves to the first digit. |
| Dragonbox.PrintThreeExponentDigits | src/libraries/format/implementations/ftoa_dragonbox.cpp:296-312 | For a magnitude below 1000, it writes its decimal text without leading zeros. The three-digit case uses the 6554 reciprocal. |
| Dragonbox.PrintDoubleExponent | src/libraries/format/implementations/ftoa_dragonbox.cpp:287-312 | It writes `ExponentText(x)` for \|x\| < 1000. |
| Dragonbox.ToCharsDouble | src/libraries/format/implementations/ftoa_dragonbox.cpp:244-315 | It writes exactly `Scientific(significand, exponent)` and returns the index after it. Nothing outside that span changes. |
| Notation.ReadScientificRoundTrip | src/libraries/format/implementations/ftoa_dragonbox.cpp:216-242 | The printed text parses back to the significand and exponent it was printed from, so the output denotes exactly significand * 10^exponent. |
| Notation.ReadExponentRoundTrip | src/libraries/format/implementations/ftoa_dragonbox.cpp:287-312 | The exponent suffix parses back to the exponent. |
| Notation.ExponentTextShape | src/libraries/format/implementations/ftoa_dragonbox.cpp:224-239 | The suffix is `E`, then `-` exactly when the exponent is negative (never `+`), then digits with a leading zero only for zero. |
| Notation.SignificandLength | src/libraries/format/implementations/ftoa_dragonbox.cpp:72-84 | A one-digit significand has no point. Longer ones take one character more than their digits. |
| Notation.FloatTextLength | src/libraries/format/implementations/ftoa_dragonbox.cpp:216-242 | A float's text, with at most 9 digits and a two-digit exponent, is at most 14 characters. |
| Notation.DoubleTextLength | src/libraries/format/implementations/ftoa_dragonbox.cpp:244-315 | A double's text, with at most 17 digits and a three-digit exponent, is at most 23 characters. |
| CatString.StringLengthAs | src/libraries/string/string.h:14-21 | It returns the index of the first NUL byte: that byte is 0, every byte before it is not, and the result equals `NulIndex`. |
| CatString.StringLengthIsNulIndex | src/libraries/string/string.h:17-19 | The loop's stopping index is the unique first-NUL index. |
| CatString.NulIndexIgnoresTail | src/libraries/string/string.h:15-21 | Bytes after the terminator do not change the length. |
| CatString.CopyMemory | src/libraries/string/string.h:24-31 | The destination's first `bytes` bytes become the source's, and the rest is unchanged. A count of zero or less copies nothing. |
| CatString.CopiedPrefixIdempotent | src/libraries/string/string.h:28-30 | Copying the same prefix twice is copying it once. |
| CatString.CopiedPrefixWhole | src/libraries/string/string.h:28-30 | Copying a whole equal-length source makes the destination equal to it. |
| CatString.IsAligned | src/libraries/string/string.h:34-36 | For a positive alignment, true exactly when the address is a whole multiple of the alignment (the address modulo the alignment is 0). |
| CatString.MultipleIsAligned | src/libraries/string/string.h:34-36 | Every multiple of the alignment is aligned. |
| CatString.AlignedToFactor | src/libraries/string/string.h:34-36 | Alignment to a*b implies alignment to a. |
| CatResult.MakeError | src/result/result.hpp:18-20 | A code in i32 range is kept. Any code is stored congruent to itself modulo 2^32. |
| CatResult.MakeErrorWraps | src/result/result.hpp:18-20 | Codes differing by 2^32 make the same error. |
| CatResult.ToInteger | src/result/result.hpp:28-33 | Converting an error to a wide enough integral type gives an i32-range value from which the same error is rebuilt. |
| CatResult.ToBool | src/result/result.hpp:28-33 | Converting an error to bool is true exactly when it is not the error with code 0. |
| CatResult.ErrorCodeRoundTrip | src/result/result.hpp:28-33 | Converting an error to an integer gives back its code, and rebuilding from that code gives the same error. Converting to bool is true exactly when the code is non-zero. |
| CatResult.Equals | src/result/result.hpp:35-37 | Two errors compare equal if and only if they are the same error. |
| CatResult.FromError | src/result/result.hpp:54-57 | The result is not ok and holds the code. |
| CatResult.FromData | src/result/result.hpp:59-62 | The result is ok and holds the data. |
| CatResult.OrPanic | src/result/result.hpp:65-73 | It returns the data exactly when the result is ok, and otherwise exits with EXIT_FAILURE. |
| CatResult.OrReturn | src/result/result.hpp:86-88 | It returns its argument whatever the result holds (see Left out). |
| CatResult.OrDo | src/result/result.hpp:91-100 | The callback is called exactly when the result is not ok, and its value is returned. Otherwise the data is returned. |
| CatResult.OrPropagate | src/result/result.hpp:103-105 | It returns the result unchanged. |
| CatResult.OrPanicAgreesWithOrDo | src/result/result.hpp:65-100 | `or_panic` returns exactly when `or_do` would not call its callback, and then with the same data. |
| CatResult.ConstructThenRead | src/result/result.hpp:54-73 | Constructing and then reading back: an ok result yields its data, a failed one exits. |
| CatResult.ErrorToIntegralResultAsWritten | src/result/result.hpp:22-25 | As written, for an integral DataType, the conversion produces an OK result carrying the code as data. |
| CatResult.ErrorToIntegralResultIsOk | src/result/result.hpp:22-25 | As written, `Error(1)` converts to a result that `or_panic` lets through with value 1. The intended conversion exits instead. |
| CatResult.ErrorToResult | src/result/result.hpp:22-25 | As intended: a failed result with the same code, on which `or_panic` exits with EXIT_FAILURE. |

## Left out

- The shortest-representation search that produces the decimal significand and exponent. It lives in `cat/detail/ftoa_dragonbox.hpp`, which is not part of this model. The printer takes its output as input.
- The SIMD helpers and the rest of `string.h` beyond the three functions above. System calls, process start-up and the tests are also left out.
- `copy_memory_small` from the table is modelled as two single-character writes of the same two characters.
- Dragonbox.PrintNineDigits: the unrolled C++ code is one function. The model splits it into one helper method per branch, plus shared 4- and 6-digit tails. The branches, constants, offsets and exponent increments are the source's, but the code is reorganised.
- Dragonbox.PrintFloatExponent, Dragonbox.PrintDoubleExponent and Dragonbox.PrintDoubleSignificand are likewise carved out of the inline bodies of `to_chars`.
- Dragonbox.ToCharsFloat: it requires a significand below 10^9, because the shortest significand of a float has at most 9 digits; the source takes any 32-bit value, and for one of 10 or more digits its 9-digit branch writes a non-digit first character (4294967295 gives `'0' + 42`, that is `Z`). It requires the exponent printed to have at most two digits, because the source has no branch for more; every finite float meets this bound. It requires the buffer to hold the text, because the source trusts its caller for the buffer size.
- Dragonbox.PrintNineDigits: it requires s below 10^9 for the same reason; the C++ function takes any 32-bit value.
- Dragonbox.ToCharsDouble: it requires a significand below 10^17, a printed exponent with at most three digits, and room in the buffer. These are the same limits the source relies on without checking.
- The `int` exponent is unbounded here; the source's `int` never comes near overflow for these exponents.
- Dragonbox.PrintDoubleSignificand: `second_block` is left uninitialised in the source when there is no second block. The model starts it at 0 because it is never read in that case.
- CatString.StringLengthAs: the result type T of `string_length_as` may be any integer type. The model returns an unbounded `nat`, so a string longer than T can count is not modelled. It requires a NUL byte inside the array, as the C++ requires a terminated string.
- CatString.CopyMemory: the source and destination are distinct arrays. Overlapping regions of the same buffer are not modelled.
- CatString.IsAligned: the alignment must be positive. A zero alignment is undefined behaviour in C++, and a negative one, converted to a huge unsigned value, is not modelled.
- `Error() = default` leaves the code uninitialised. It has no counterpart here; every `Error` carries a code.
- CatResult.ToInteger: conversions of an `Error` to integral types narrower than `i32` would truncate. Only conversion to a type that holds every `i32` (and to `bool`) is modelled.
- CatResult.OrDo: the callback's side effects are not modelled, because the callback is a pure function here. When `T` is `void` and the result is ok, nothing is returned. The model returns the dummy data.
- `Result<void>` stores a dummy `char` as its data. The model is generic in `T` and does not single out `void`.
- CatResult.OrReturn: it returns its argument even for an ok result, exactly as the code does. The name suggests a fallback used only on failure; the model keeps the code's behaviour and claims nothing about the intent.

## Findings

| source | as written | input that shows it | evidently intended | confidence | as-written member | corrected member |
|---|---|---|---|---|---|---|
| src/result/result.hpp:22-25 | `operator Result<T>()` returns `Result<T>(code)` with the `i32` code. For an integral DataType, including `char` for the default `Result<>`, the data constructor wins: it is reached by a standard conversion, while the `Error` constructor needs the user-defined conversion `Error(auto)`. So the result is ok, with the code as data. | Converting `Error(1)` to `Result<i32>` (or `Result<>`) through this operator | A failed result holding the error, as `Result(Error)` builds | medium, not executed (plain copy-initialisation from an `Error` prefers the non-template `Result(Error)` constructor, so the operator is reached only when selected explicitly) | CatResult.ErrorToIntegralResultAsWritten, CatResult.ErrorToIntegralResultIsOk | CatResult.ErrorToResult |
