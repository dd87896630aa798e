/** Failure-carrying values for the steps of the analysis that raise in the source. */
module Errors {

  /** An attribute that a step may not have assigned yet. */
  datatype Option<T> = None | Some(value: T)

  /** Why a step of the analysis stops without a result. */
  datatype Failure =
    | EmptyData      // a reduction or an index into an array with no samples
    | SingularFit    // the elastic window holds no two distinct strains
    | NoMatch        // a search finds no qualifying sample
    | ShapeMismatch  // two arrays of different lengths are combined elementwise
    | NonFinite      // a division by zero would fill a real-valued result with inf or nan

  datatype Result<T> = Ok(value: T) | Err(error: Failure)

  /** What a state-changing step reports: it completed, or it raised. */
  datatype Outcome = Pass | Fail(error: Failure)
}
