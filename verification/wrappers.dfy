/** Absent-or-present values and value-or-error results.

    The toolkit never throws for a missing value: it hands back `null`,
    `undefined` or `NaN` and lets the caller carry on. The model writes all
    three as `None`, and also the `Infinity` that `chisquare` divides out of
    a zero expected count; a `Some` is always a finite, exactly known number.
    The one exception is `linReg` on x values that do not vary: its record
    with a `NaN` slope and a `NaN` intercept is the `Failure(NoSpread)` of a
    `Result`. */
module Wrappers {

  datatype Option<+T> = None | Some(value: T)

  datatype Result<+T, +E> = Success(value: T) | Failure(error: E)
}
