/** Option, Result and the failure kinds shared by every module. */
module Common {
  datatype Option<+T> = None | Some(value: T)

  /** A Go (value, error) pair: exactly one of the two is present. */
  datatype Result<+T> = Success(value: T) | Failure(error: Error) {
    predicate IsFailure() {
      Failure?
    }

    function PropagateFailure<U>(): Result<U>
      requires Failure?
    {
      Failure(error)
    }

    function Extract(): T
      requires Success?
    {
      value
    }
  }

  /** What went wrong. Error texts and wrapping are not modelled. */
  datatype Error =
    | Truncated | ZeroValue | BadVersion | UnknownAlgorithm | UnexpectedParams | Leftover
    | TooLong | NilInput | EmptyInput | ZeroExponent
    | UnsupportedScheme | UnsupportedAlgorithm | BadKeySize | CiphertextTooShort
    | EmptyCiphertext | PartialBlock | InvalidPadding | BadSignature
    | MalformedInner | AttributeMismatch | WrongName | InvalidCertifyInfo | HmacMismatch
    | SerialMismatch | EmptyField | InvalidRequest | AtomicMismatch | CertMismatch
    | Dependency
    | Panic

  function Require(condition: bool, error: Error): (r: Result<()>)
    ensures r.Success? <==> condition
  {
    if condition then Success(()) else Failure(error)
  }
}
