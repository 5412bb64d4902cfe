/**
 * The password hasher (bcrypt in the application), kept abstract.
 * Only the round-trip property is assumed of it, as the precondition `Sound`.
 */
module Hashing {

  /**
   * `hash(password, salt)` is the digest `bcrypt.hash` produces when it draws
   * `salt`; `compare(password, digest)` is `bcrypt.compare`.
   */
  datatype Hasher = Hasher(hash: (string, string) -> string, compare: (string, string) -> bool)
  {
    /** Comparing a password with any digest of that same password succeeds. */
    ghost predicate Sound()
    {
      forall password, salt :: compare(password, hash(password, salt))
    }
  }
}
