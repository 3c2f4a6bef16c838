/** The nullable values of the source (`char?`, a `string` that may be null). */
module Wrappers {

  datatype Option<+T> = None | Some(value: T)

  /** The characters `StringBuilder.Append` adds for a `char?`: none for null. */
  function OptChars(c: Option<char>): string
  {
    match c
    case None => []
    case Some(x) => [x]
  }
}
