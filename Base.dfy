/**
 * Shared vocabulary of the reservation engine: optional values (Java's
 * nullable references), results carrying an error, and the fixed-width
 * integer ranges of Java's `int` and `long`.
 */
module Base {

  /** A value that may be absent, standing for a Java reference that may be null. */
  datatype Option<+T> = None | Some(value: T) {
    predicate IsFailure() { None? }

    function PropagateFailure<U>(): Option<U>
      requires None?
    {
      None
    }

    function Extract(): T
      requires Some?
    {
      value
    }
  }

  /** The outcome of an operation that either yields a value or fails with an error. */
  datatype Result<+T, +E> = Success(value: T) | Failure(error: E)

  /** The outcome of an operation that yields nothing but may fail. */
  datatype Outcome<+E> = Pass | Fail(error: E)

  const INT32_MIN: int := -0x8000_0000
  const INT32_MAX: int := 0x7FFF_FFFF
  const INT64_MIN: int := -0x8000_0000_0000_0000
  const INT64_MAX: int := 0x7FFF_FFFF_FFFF_FFFF

  /** Java `int`. */
  type Int32 = x: int | INT32_MIN <= x <= INT32_MAX

  /** Java `long`. */
  type Int64 = x: int | INT64_MIN <= x <= INT64_MAX

  /** `x + 1` on a Java `long`: the largest value wraps around to the smallest. */
  function Inc64(x: Int64): (r: Int64)
    ensures x < INT64_MAX ==> r == x + 1
    ensures x == INT64_MAX ==> r == INT64_MIN
  {
    if x == INT64_MAX then INT64_MIN else x + 1
  }
}
