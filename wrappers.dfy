/** Optional values (a TypeScript `T | null`) and backend replies (a Supabase `{ data, error }` pair). */
module Wrappers {

  datatype Option<+T> = None | Some(value: T)

  /** The outcome of one backend call: the row(s) it returned, or the error it reported. */
  datatype Result<+T> = Success(value: T) | Failure(error: string)

  /** The outcome of a backend write whose only reply is an optional error. */
  datatype Outcome = Pass | Fail(error: string)
}
