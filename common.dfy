/** Value wrappers shared by every module of the model. */
module Common {

  /** A value that may be absent (TypeScript's `T | null`). */
  datatype Option<+T> = None | Some(value: T)

  /** What a JavaScript `catch` receives: an `Error` object with a message, or any other thrown value. */
  datatype Thrown = ErrorObject(message: string) | OtherValue

  /** The settled state of a promise or the result of a call that may throw. */
  datatype Outcome<+T> = Succeeded(value: T) | Threw(thrown: Thrown)

  /** `err instanceof Error ? err.message : fallback`, the message shown for a caught value. */
  function ErrorText(thrown: Thrown, fallback: string): string
  {
    match thrown
    case ErrorObject(m) => m
    case OtherValue => fallback
  }

  /** The smaller of two numbers. */
  function Min(a: int, b: int): (r: int)
    ensures r <= a && r <= b && (r == a || r == b)
  {
    if a <= b then a else b
  }
}
