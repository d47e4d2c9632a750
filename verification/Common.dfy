/** Values shared by the numerical modules: complex observations, structured
    numerical failures, and the result of code that may raise. */
module Common {
  datatype Option<+T> = None | Some(value: T)

  /** A completed call, or the exception that escaped from it. */
  datatype Checked<+T, +E> = Ok(value: T) | Raised(error: E)

  datatype Complex = Complex(re: real, im: real)

  /** The failure kinds the benchmark code names; every other kind keeps its text. */
  datatype FailureKind =
    | InvalidCandidate
    | EliminatedBlock
    | RootSlope
    | NumericalResolution
    | DirectFormation
    | OtherKind(name: string)

  datatype Failure = Failure(kind: FailureKind, stage: string, evidence: string)

  /** The kinds a candidate may carry as data instead of stopping the study. */
  predicate IsCandidateFailure(kind: FailureKind) {
    kind in {InvalidCandidate, EliminatedBlock, RootSlope, NumericalResolution}
  }

  /** One synchronized numerical outcome; a failure never carries a value. */
  datatype Evaluation = Solved(root: Complex) | Unsolved(failure: Failure)
}
