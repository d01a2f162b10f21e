/** Small failure-carrying datatypes used across the model. */
module Results {

  /** A value that may be absent (an unselected list box, an entry that did not parse). */
  datatype Option<T> = None | Some(value: T)

  /** The outcome of a user command: it went through, or it was refused with an error dialog. */
  datatype Outcome<E> = Pass | Fail(error: E)
}
