/** The failures the routines report, and the Result type that carries them. */
module Outcomes {

  /** One constructor per kind of error the routines raise. */
  datatype Error =
    | DimensionMismatch   // vectors of different lengths, wrong number of vectors
    | NotSquare           // a square matrix was required
    | SingularMatrix      // an exact-zero pivot after row selection
    | InvalidRank         // the number of eigenvalues to keep is out of range
    | ComplexSpectrum     // an eigenvalue has a non-negligible imaginary part

  datatype Result<T> = Success(value: T) | Failure(error: Error) {
    predicate IsFailure() { Failure? }

    function PropagateFailure<U>(): Result<U>
      requires Failure?
    {
      Failure(error)
    }

    function Extract(): T
      requires Success?
    {
      value
    }
  }
}
