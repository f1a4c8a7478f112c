/** What several of the models share. */
module Basics {
  datatype Option<+T> = None | Some(value: T)

  /** Whitespace, as section 2 of RFC 8259 has it. */
  predicate IsSpace(c: char) { c == ' ' || c == '\t' || c == '\n' || c == '\r' }
}
