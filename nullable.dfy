/** Java's nullable references, as values. */
module Nullable {

  /** `None` stands for a Java `null` reference. */
  datatype Option<+T> = None | Some(value: T)

  /** A Java `String` reference: `None` is `null`. */
  type JString = Option<string>

  /** What Java's string concatenation writes for a `String` operand: `null` prints as "null". */
  function Show(s: JString): string
  {
    match s
    case None => "null"
    case Some(v) => v
  }
}
