/** Option for Java's nullable references, and the outcome of a Java call that
    either returns a value or throws. */
module Wrappers {

  datatype Option<+T> = None | Some(value: T) {
    function GetOr(default: T): T {
      match this
      case Some(v) => v
      case None => default
    }
  }

  /** The exception classes the modelled code throws or catches by type. */
  datatype ExceptionKind =
    | IllegalArgument   // java.lang.IllegalArgumentException
    | IO                // java.io.IOException
    | NullPointer       // java.lang.NullPointerException
    | IndexOutOfBounds  // java.lang.StringIndexOutOfBoundsException
    | InvalidToken      // the application's InvalidTokenException
    | Runtime           // any other unchecked exception

  /** An exception, with the text `getMessage()` would give (a null message is
      carried as the text "null", which is what string concatenation makes of it). */
  datatype JavaException = JavaException(kind: ExceptionKind, message: string)

  /** What a Java call does: return a value or throw. */
  datatype Outcome<+R> = Returned(value: R) | Threw(exception: JavaException)

  /** The text the JVM gives a NullPointerException in this model. */
  const NullText: string := "null"

  function NullPointerException(): JavaException {
    JavaException(ExceptionKind.NullPointer, NullText)
  }

  function Min(a: nat, b: nat): nat { if a <= b then a else b }

  /** `stream().limit(n)`: the first `n` elements, or all of them. */
  function Take<T>(xs: seq<T>, n: nat): (r: seq<T>)
    ensures |r| == Min(n, |xs|) && r == xs[..|r|]
  {
    if |xs| <= n then xs else xs[..n]
  }
}
