/**
 * `Error` and `Result<T>` of src/result/result.hpp: an error code, and a value
 * that holds either an error code or data, tagged by `is_ok`.  No member
 * changes a value after construction, so both are datatypes; `is_ok` is the
 * discriminator `Ok?`.
 */
module CatResult {
  import opened Arith

  newtype i32 = x: int | -0x8000_0000 <= x < 0x8000_0000

  /** EXIT_FAILURE of <cstdlib>. */
  const EXIT_FAILURE: int := 1

  datatype Error = Error(code: i32)

  /**
   * `Error(auto in_code)`: the code is `static_cast<i32>(in_code)`, which for an
   * integer keeps it when it fits and otherwise wraps it modulo 2^32.
   */
  function MakeError(inCode: int): (e: Error)
    ensures -0x8000_0000 <= inCode < 0x8000_0000 ==> e.code as int == inCode
    ensures (e.code as int - inCode) % TWO32 == 0
  {
    var m := inCode % TWO32;
    assert (m - inCode) % TWO32 == 0 by {
      DivModUnique(m - inCode, TWO32, -(inCode / TWO32), 0);
    }
    if m < 0x8000_0000 then
      Error(m as i32)
    else
      assert (m - TWO32 - inCode) % TWO32 == 0 by {
        DivModUnique(m - TWO32 - inCode, TWO32, -(inCode / TWO32) - 1, 0);
      }
      Error((m - TWO32) as i32)
  }

  /** `operator==`: two errors are equal when their codes are. */
  function Equals(left: Error, right: Error): (r: bool)
    ensures r <==> left == right
  {
    left.code == right.code
  }

  /**
   * `operator T()` for an integral T wide enough to hold an i32: the code, an
   * i32 value from which the same error is rebuilt.
   */
  function ToInteger(e: Error): (c: int)
    ensures -0x8000_0000 <= c < 0x8000_0000
    ensures MakeError(c) == e
  {
    e.code as int
  }

  /** `operator T()` for bool: true exactly when the error is not the one with code 0. */
  function ToBool(e: Error): (b: bool)
    ensures b <==> e != MakeError(0)
  {
    e.code != 0
  }

  /** An error built from an i32 gives that code back, and an error rebuilt from its code is itself. */
  lemma ErrorCodeRoundTrip(c: int, e: Error)
    requires -0x8000_0000 <= c < 0x8000_0000
    ensures ToInteger(MakeError(c)) == c
    ensures MakeError(ToInteger(e)) == e
    ensures ToBool(MakeError(c)) <==> c != 0
  {
  }

  /** Codes that differ by a multiple of 2^32 make the same error. */
  lemma MakeErrorWraps(c: int)
    ensures MakeError(c + TWO32) == MakeError(c)
  {
    DivModUnique(c + TWO32, TWO32, c / TWO32 + 1, c % TWO32);
  }

  datatype Result<T> = Failed(code: Error) | Ok(data: T)

  /** `Result(Error in_code)`: not ok, holding the code. */
  function FromError<T>(inCode: Error): (r: Result<T>)
    ensures !r.Ok? && r.code == inCode
  {
    Failed(inCode)
  }

  /** `Result(DataType in_data)`: ok, holding the data. */
  function FromData<T>(inData: T): (r: Result<T>)
    ensures r.Ok? && r.data == inData
  {
    Ok(inData)
  }

  /** What `or_panic` does: return a value, or end the process with a status. */
  datatype Outcome<T> = Returned(value: T) | Exited(status: int)

  /** `or_panic`: the data of an ok result; otherwise the process exits with EXIT_FAILURE. */
  function OrPanic<T>(r: Result<T>): (o: Outcome<T>)
    ensures o.Returned? <==> r.Ok?
    ensures r.Ok? ==> o.value == r.data
    ensures !r.Ok? ==> o.status == EXIT_FAILURE
  {
    match r
    case Ok(d) => Returned(d)
    case Failed(_) => Exited(EXIT_FAILURE)
  }

  /** `or_return`: its argument, whatever the result holds. */
  function OrReturn<T>(r: Result<T>, inData: T): (v: T)
    ensures v == inData
  {
    inData
  }

  /**
   * `or_do`: for a failed result, the callback's value; for an ok result, the
   * data.  The flag says whether the callback was called: exactly when not ok.
   */
  function OrDo<T>(r: Result<T>, callback: () -> T): (out: (T, bool))
    ensures out.1 <==> !r.Ok?
    ensures !r.Ok? ==> out.0 == callback()
    ensures r.Ok? ==> out.0 == r.data
  {
    if !r.Ok? then (callback(), true) else (r.data, false)
  }

  /** `or_propagate`: a copy of the result, to be returned by the caller. */
  function OrPropagate<T>(r: Result<T>): (p: Result<T>)
    ensures p == r
  {
    r
  }

  /** The accessors agree: or_panic returns exactly when or_do would not call its callback, with the same data. */
  lemma OrPanicAgreesWithOrDo<T>(r: Result<T>, callback: () -> T)
    ensures OrPanic(r).Returned? <==> !OrDo(r, callback).1
    ensures OrPanic(r).Returned? ==> OrPanic(r).value == OrDo(r, callback).0
  {
  }

  /** Constructing and then reading back: the data of an ok result, the exit of a failed one. */
  lemma ConstructThenRead<T>(d: T, e: Error, fallback: () -> T)
    ensures OrPanic(FromData(d)) == Returned(d)
    ensures OrPanic(FromError<T>(e)) == Exited(EXIT_FAILURE)
    ensures OrDo(FromData(d), fallback) == (d, false)
    ensures OrDo(FromError(e), fallback) == (fallback(), true)
    ensures OrPropagate(FromError<T>(e)).code == e
  {
  }

  // ---------------------------------------------------------------------
  // Error -> Result<T>
  // ---------------------------------------------------------------------

  /**
   * `operator Result<T>()` as written, for an integral DataType (here i32; the
   * default `Result<>` has DataType char, also integral): `Result<T>(code)`
   * passes the i32 code, and the data constructor, reached by a standard
   * conversion, wins over the Error constructor, reached through the
   * user-defined `Error(auto)`.  The result is ok, with the code as data.
   */
  function ErrorToIntegralResultAsWritten(e: Error): (r: Result<i32>)
    ensures r.Ok? && r.data == e.code
  {
    Ok(e.code)
  }

  /** The conversion as written turns the error 1 into an ok result that or_panic lets through. */
  lemma ErrorToIntegralResultIsOk()
    ensures ErrorToIntegralResultAsWritten(MakeError(1)).Ok?
    ensures OrPanic(ErrorToIntegralResultAsWritten(MakeError(1))) == Returned(1)
    ensures OrPanic(ErrorToResult<i32>(MakeError(1))) == Exited(EXIT_FAILURE)
  {
  }

  /**
   * `operator Result<T>()` as intended (and as it behaves for a DataType that
   * an i32 does not convert to): a failed result with the same code.
   */
  function ErrorToResult<T>(e: Error): (r: Result<T>)
    ensures !r.Ok? && r.code == e
    ensures OrPanic(r) == Exited(EXIT_FAILURE)
  {
    FromError(e)
  }
}
