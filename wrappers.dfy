/** Failure-carrying values used in place of Java's Optional and its exceptions. */
module Wrappers {

  datatype Option<+T> = None | Some(value: T)

  /** The distinct ways an operation on a line's sections can be refused. */
  datatype Error =
    | AlreadyRegistered   // both stations of the new section are already on the line
    | NotConnectable      // neither station of the new section is on a non-empty line
    | TooFewSections      // a station cannot be removed from a line of one section
    | SectionNotFound     // no section is incident to the station on one side

  datatype Result<+T> = Ok(value: T) | Err(error: Error)

  /** The outcome of an operation that returns nothing but may throw. */
  datatype Outcome = Pass | Fail(error: Error)
}
