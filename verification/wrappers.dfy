/** Optional values and results with an error, usable with `:-`. */
module Wrappers {

  /** A Python value that may be `None` (or an attribute that may be missing). */
  datatype Option<+T> = None | Some(value: T) {

    function GetOr(default: T): T {
      match this
      case Some(v) => v
      case None => default
    }
  }

  /** The outcome of a computation that may raise. */
  datatype Result<+T, +E> = Ok(value: T) | Err(error: E) {

    predicate IsFailure() {
      Err?
    }

    function PropagateFailure<U>(): Result<U, E>
      requires Err?
    {
      Err(error)
    }

    function Extract(): T
      requires Ok?
    {
      value
    }
  }
}

/** The exceptions that the stop-rule code lets escape to its caller. */
module Failures {

  datatype Failure =
    | MissingVocabKey          // a `vocab[...]` or reverse-vocabulary lookup of an absent key
    | EmptyStopWord            // `y[0]` on an empty stop word while dropping synthetic newlines
    | StopsEncountersMismatch  // the construction assertion `len(stops) % len(encounters) == 0` fails
    | NoEncounters             // `len(stops) % len(encounters)` divides by zero
}
