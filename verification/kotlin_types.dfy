/** The few Kotlin/JVM language notions the activity relies on: nullable
    references, the signed `Byte`, and calls that either return or throw. */
module KotlinTypes {

  /** A nullable reference `T?`: `None` stands for `null`. */
  datatype Option<+T> = None | Some(value: T)

  /** Kotlin's `Byte`: a signed 8-bit integer. */
  newtype JByte = x: int | -128 <= x < 128

  /** The outcome of a call into platform code the model cannot see: it either
      returns a value or throws an `Exception` (what the activity's `catch`
      clauses catch) whose `message` may be null. */
  datatype Outcome<+T> = Value(value: T) | Raised(message: Option<string>)

  /** How a `String?` is rendered by string interpolation (`"${s}"`):
      a null reference prints as the four characters `null`. */
  function Interpolate(s: Option<string>): string
  {
    match s
    case Some(v) => v
    case None => "null"
  }
}
