/** Option and Result values shared by the modules of the model. */
module Wrappers {

  datatype Option<+T> = None | Some(value: T)

  /** The Python exceptions the modelled code can raise, named after the
      statement that raises them. */
  datatype Error =
    | AssertionFailed(line: nat)
    | IndexOutOfRange(line: nat)
    | KeyMissing(line: nat)
    | UnboundName(line: nat)
    | NoneAttribute(line: nat)
    | NotSubscriptable(line: nat)
    | ValueMissing(line: nat)
    | TypeMismatch(line: nat)
    | FileMissing(line: nat)
    | RegexError(line: nat)
    | Exit(status: nat)

  datatype Result<+T> = Ok(value: T) | Err(error: Error)
}
