/** Result values that stand in for the hosted backend's replies. */
module Wrappers {

  /** A value that may be absent: JavaScript's `null` / `undefined` next to a value. */
  datatype Option<+T> = None | Some(value: T)

  /** The reply of a backend call that returns no data: `{ error }` is null or set. */
  datatype Outcome = Success | Failure

  /** The result of an awaited call whose promise may reject (a thrown exception). */
  datatype Attempt<+T> = Threw | Returned(value: T)
}
