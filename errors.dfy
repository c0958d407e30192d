/**
 * Every exception the modelled code raises on purpose (errors.py,
 * brickfront/errors.py) or lets escape from the Python runtime.
 */
module Errors {

  datatype Error =
    | IndexError                          // a child index beyond the element's last child
    | TypeError                           // int() applied to a missing text (None)
    | ValueError                          // int() applied to text that is not a numeral
    | KeyError                            // a token-table lookup that missed
    | ParseError                          // the response body is not well-formed XML
    | InvalidOrderType(message: string)   // errors.py:1
    | InvalidRequest(message: string)     // brickfront/errors.py:1, errors.py:6

  /** The outcome of a call that may raise: a value, or the exception that escapes. */
  datatype Result<+T> = Ok(value: T) | Err(error: Error) {

    predicate IsFailure() { Err? }

    function PropagateFailure<U>(): Result<U>
      requires Err?
    {
      Err(error)
    }

    function Extract(): T
      requires Ok?
    {
      value
    }
  }
}
