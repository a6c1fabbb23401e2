/**
Small shared vocabulary: optional values, for nullable columns and optional fields, failing calls, and interference.
*/
module Prelude {
  datatype Option<+T> = None | Some(value: T)

  /** How a remote call ends: it may also fail, for good or not, before or after its write took effect. */
  datatype Fate = Answers | FailsBefore(permanent: bool) | FailsAfter(permanent: bool)

  /** The moves others make before the n-th statement of a method: none, unless said otherwise. */
  function Gap<T>(others: seq<seq<T>>, n: nat): seq<T> {
    if n < |others| then others[n] else []
  }
}
