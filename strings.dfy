/** `String.prototype.toLowerCase`, restricted to the ASCII letters. */
module Strings {

  /** An ASCII upper-case letter becomes its lower-case partner; any other character is kept. */
  function LowerChar(c: char): char
  {
    if 'A' <= c <= 'Z' then (c as int + 32) as char else c
  }

  /** The string lower-cased character by character. */
  function Lower(s: string): string
  {
    seq(|s|, i requires 0 <= i < |s| => LowerChar(s[i]))
  }

  /** `a.toLowerCase() === b.toLowerCase()` */
  predicate SameIgnoringCase(a: string, b: string)
  {
    Lower(a) == Lower(b)
  }

  /** A string is in canonical (stored) form when lower-casing leaves it as it is. */
  predicate IsLowerCase(s: string)
  {
    Lower(s) == s
  }

  /** Lower-casing twice is lower-casing once: `toLowerCase` output is canonical. */
  lemma LowerIsLowerCase(s: string)
    ensures IsLowerCase(Lower(s))
    ensures SameIgnoringCase(Lower(s), s)
  {
  }
}
