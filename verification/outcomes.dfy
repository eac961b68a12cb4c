/** Failure-compatible result types shared by the codec.

    The JavaScript reader signals malformed input by throwing: a `RangeError`
    from Node's `Buffer.read*` when a read runs past the end, a `TypeError`
    when `this[type]` names no handler, and an `Error` when the top tag is not
    a compound; `parse` passes on the error of `zlib.gunzip`. The model
    returns these as values of `Error`.
 */
module Outcomes {

  /** Why a decode failed. */
  datatype Error =
    | OutOfRange                  // a fixed-width read past the end of the buffer
    | NoHandler(code: int)        // `this[type]` is undefined for this type code
    | UnknownListType(code: int)  // an empty list whose element code has no registered name
    | TopTagNotCompound(code: int) // 'Top tag should be a compound'
    | InflateFailed               // `zlib.gunzip` reported an error

  datatype Option<+T> = None | Some(value: T)

  datatype Result<+T> = Ok(value: T) | Err(error: Error) {

    predicate IsFailure() {
      Err?
    }

    function PropagateFailure<U>(): Result<U>
      requires Err?
    {
      Err(error)
    }

    function Extract(): T
      requires Ok?
    {
      value
    }
  }
}
