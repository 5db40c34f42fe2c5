/** Failure-compatible wrappers and the ways a factory call can abort. */
module Results {

  datatype Option<+T> = None | Some(value: T)

  /** Ok carries what a call produced; Err means the call panicked and the
      host discarded every write it made. */
  datatype Result<+T, +E> = Ok(value: T) | Err(error: E) {
    predicate IsFailure() { Err? }

    function PropagateFailure<U>(): Result<U, E>
      requires Err?
    {
      Err(error)
    }

    function Extract(): T
      requires Ok?
    {
      value
    }
  }

  /** One constructor per panic of the factory contract. */
  datatype Error =
    | DepositTooLow          // first deposit smaller than the registration fee
    | InvalidMetadata        // the token metadata validator rejected the arguments
    | InvalidSymbol          // the lowercased symbol has a byte outside [0-9a-z]
    | InvalidTokenAccountId  // "<token_id>.<factory>" is not a legal account id
    | AccountNotRegistered   // the caller has no storage credit entry
    | NotEnoughBalance       // the caller's credit is below the creation cost
    | TokenIdTaken           // a token with the same id already exists
}
