/** The ways the monitor's core can end a computation.

    run-info never returns an error from its parsers: every
    unexpected shape of the kernel text ends in an `expect`, an `unwrap`,
    an `assert!` or a checked-arithmetic panic. Here each of those panics
    is a value of `Panic`, so a caller can tell them apart and a contract
    can say exactly when one happens.
 */
module Outcomes {

  /** Why run-info would panic. */
  datatype Panic =
    | MissingField           // `Vec::get` / `Iterator::nth` gave None and `expect` fired
    | InvalidNumber          // `str::parse` failed and `expect` fired
    | Overflow               // unsigned addition or multiplication left the 64-bit range
    | Underflow              // unsigned subtraction went below zero
    | MissingKey(key: string) // `HashMap::get` gave None and `expect` fired
    | UnwrapNone             // `Option::unwrap` on None
    | AssertFailed           // an `assert!` did not hold

  /** The conventional optional value. */
  datatype Option<+T> = None | Some(value: T)

  /** Either the computed value or the panic that stopped the computation.
      Failure-compatible, so `:-` propagates the first panic. */
  datatype Result<+T> = Ok(value: T) | Err(panic: Panic) {

    predicate IsFailure() {
      Err?
    }

    function PropagateFailure<U>(): Result<U>
      requires Err?
    {
      Err(panic)
    }

    function Extract(): T
      requires Ok?
    {
      value
    }
  }
}
