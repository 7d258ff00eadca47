/** Failure-carrying values shared by the whole model: PHP's `null`, the
    PHPUnit assertion that passes or fails with a message, and the thrown
    exception that aborts an operation. */
module Wrappers {

  datatype Option<+T> = None | Some(value: T)

  /** The result of one or more PHPUnit assertions: the first failure stops the test. */
  datatype Outcome = Pass | Fail(message: string)

  /** A value, or the exception the source throws instead. */
  datatype Result<+T> = Ok(value: T) | Err(message: string)

  /** Sequencing two assertions: the second runs only when the first passed. */
  function Then(first: Outcome, second: Outcome): (r: Outcome)
    ensures r.Pass? <==> first.Pass? && second.Pass?
  {
    if first.Fail? then first else second
  }
}
