/** Option, Result and Outcome, and the Python exceptions the library raises. */
module Wrappers {

  datatype Option<+T> = None | Some(value: T)

  datatype Result<+T, +E> = Ok(value: T) | Err(error: E)

  /** The outcome of a Python method that returns nothing but may raise. */
  datatype Outcome<+E> = Pass | Fail(error: E)

  /** A raised Python exception: its class and its message. */
  datatype Error =
    | ValueError(message: string)
    | TypeError(message: string)
    | IndexError(message: string)
    | ZeroDivisionError(message: string)
    | Warning(message: string)
    /** A result Python would compute as a float, which this model does not represent. */
    | NotModelled(message: string)

  function OutcomeOf<T>(r: Result<T, Error>): (o: Outcome<Error>)
    ensures o.Pass? <==> r.Ok?
    ensures r.Err? ==> o == Fail(r.error)
  {
    match r
    case Ok(_) => Pass
    case Err(e) => Fail(e)
  }
}
