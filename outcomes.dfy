/** Java's nullable references and the services' two failure kinds, as values. */
module Outcomes {

  /** A nullable Java reference: `None` stands for `null`. */
  datatype Option<+T> = None | Some(value: T)

  /**
   * What a service operation ends with: a value, a `DataValidationException`
   * carrying every collected message in order, or a `DataNotFoundException`
   * carrying exactly one message.
   */
  datatype Outcome<+T> =
    | Ok(value: T)
    | Validation(errors: seq<string>)
    | NotFound(message: string)
}
