/** Optional values and the error results the modelled services raise. */
module Outcomes {

  datatype Option<+T> = None | Some(value: T)

  /** The error classes of `src/lib/errors.ts` that the modelled code throws. */
  datatype Error =
    | NotFound
    | Unprocessable
    | Conflict
    | Internal
    | ProviderFailed

  datatype Result<+T> = Ok(value: T) | Err(error: Error)
}
