/** Optional values and the outcome of an operation that may throw a Java exception. */
module Wrappers {

  datatype Option<T> = None | Some(value: T)

  /** The Java exception classes the harness can raise or catch. */
  datatype ExcKind =
    | NumberFormat          // java.lang.NumberFormatException
    | IllegalArgument       // java.lang.IllegalArgumentException
    | IndexOutOfBounds      // java.lang.StringIndexOutOfBoundsException
    | ArrayIndexOutOfBounds // java.lang.ArrayIndexOutOfBoundsException
    | NullPointer           // java.lang.NullPointerException
    | ClassCast             // java.lang.ClassCastException
    | Runtime               // java.lang.RuntimeException
    | NoSuchMethod          // java.lang.NoSuchMethodException
    | InvocationTarget      // java.lang.reflect.InvocationTargetException

  /** A thrown exception: its class and what `getMessage()` returns (Java `null` is `None`). */
  datatype Exc = Exc(kind: ExcKind, message: Option<string>)

  /** The value an operation returns, or the exception it throws. */
  datatype Result<T> = Ok(value: T) | Err(error: Exc)

  function Throw<T>(kind: ExcKind, message: string): Result<T>
  {
    Err(Exc(kind, Some(message)))
  }

  /**
   * The `NullPointerException` the JVM throws when code calls `callee` on
   * `variable` while it holds `null`, with the detailed message that JDK 15
   * and later give it (the model targets JDK 21). `variable` is named as
   * in the source text.
   */
  function NullDereference(callee: string, variable: string): (e: Exc)
    ensures e.kind == NullPointer && e.message.Some? && e.message.value != ""
  {
    Exc(NullPointer, Some("Cannot invoke \"" + callee + "\" because \"" + variable + "\" is null"))
  }
}
