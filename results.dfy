/** Exceptions, results and the shape of a decoded value shared by the cursors
    and the two decoders. Each Java exception that the core can raise is a
    constructor of `Exception`; a Java method that may throw becomes a function
    or method returning `Result`. */
module Results {

  /** The kinds of java.io.IOException (and its subclass EOFException) raised
      by the core. */
  datatype IOFailure =
    | EndOfFile                          // fewer bytes remain than a read needs
    | StringLengthTooLarge(length: int)  // a padded string longer than 10000 bytes
    | UnsupportedDataType(tag: int)      // a farm-table discriminant above 6

  datatype Exception =
    | IO(failure: IOFailure)             // IOException, caught by the legacy `read`
    | IllegalArgument                    // IllegalArgumentException
    | IndexOutOfBounds(index: int)       // IndexOutOfBoundsException from List.set
    | NoSuchElement                      // NoSuchElementException from Collections.max
    | NullPointer                        // NullPointerException
    | NegativeArraySize(size: int)       // NegativeArraySizeException from new byte[n]

  /** A value, or the exception that the Java code throws instead. */
  datatype Result<+T> = Ok(value: T) | Fail(error: Exception) {
    predicate IsFailure() { Fail? }

    function PropagateFailure<U>(): Result<U>
      requires Fail?
    {
      Fail(error)
    }

    function Extract(): T
      requires Ok?
    {
      value
    }
  }

  /** A Java reference that may be null. */
  datatype Option<+T> = None | Some(value: T)

  /** A value decoded from a byte sequence and the position just after it. */
  datatype Parsed<+T> = Parsed(value: T, next: int)

  /** What a read from a cursor yields: the value or the exception, and the
      position the cursor is left at either way. A failing read propagates
      its exception together with that position. */
  datatype Step<+T> = Step(result: Result<T>, next: int) {
    predicate IsFailure() { result.Fail? }

    function PropagateFailure<U>(): Step<U>
      requires result.Fail?
    {
      Step(Fail(result.error), next)
    }

    function Extract(): Parsed<T>
      requires result.Ok?
    {
      Parsed(result.value, next)
    }
  }
}
