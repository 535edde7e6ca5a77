/** The error kinds the modelled code raises, with their message text. */
module Errors {

  datatype ErrorKind =
    | ExternalValidatorParseError
    | CannotSerializeItemError
    | ValidationError
    | ModelError

  /** An error value: its kind and the formatted message it was created with. */
  datatype Error = Error(kind: ErrorKind, message: string)
}
