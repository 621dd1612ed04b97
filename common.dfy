/** Small shared datatypes: an optional value and a pass/fail outcome. */
module Common {

  datatype Option<T> = None | Some(value: T)

  /** The outcome of a validation: `Fail` carries the error message the source raises. */
  datatype Outcome = Pass | Fail(error: string)
}
