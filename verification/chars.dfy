/** Character classes shared by the countdown reader and the brand index. */
module Chars {

  /** A decimal digit, `0` to `9`: `/[0-9]/` on one character. */
  predicate IsDigit(c: char)
  {
    '0' <= c <= '9'
  }
}
