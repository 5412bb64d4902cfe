/**
 * The field rules both forms apply before calling the store: the email must
 * contain a match of `/\S+@\S+\.\S+/`, the password must be at least six
 * characters long, and (on sign-up) the name must be non-empty.
 */
module Validation {
  import opened Strings

  const InvalidEmailMessage := "Please enter a valid email address."
  const ShortPasswordMessage := "Password must be at least 6 characters long."
  const NameRequiredMessage := "Name is required."
  const MinPasswordLength := 6

  /** The JavaScript `\s` class: the ECMAScript white-space and line-terminator characters. */
  predicate IsSpace(c: char)
  {
    var n := c as int;
    || (0x09 <= n <= 0x0D) || n == 0x20 || n == 0xA0 || n == 0x1680
    || (0x2000 <= n <= 0x200A) || n == 0x2028 || n == 0x2029
    || n == 0x202F || n == 0x205F || n == 0x3000 || n == 0xFEFF
  }

  /** No character of `s[lo..hi]` is white space. */
  predicate NoSpaceIn(s: string, lo: int, hi: int)
    requires 0 <= lo <= hi <= |s|
  {
    forall k | lo <= k < hi :: !IsSpace(s[k])
  }

  /** `\S+` matches `s[lo..hi]`: it is non-empty and holds no white space. */
  ghost predicate NonSpaceRun(s: string, lo: int, hi: int)
    requires 0 <= lo <= hi <= |s|
  {
    lo < hi && NoSpaceIn(s, lo, hi)
  }

  /**
   * `s[lo..hi]` splits as `\S+` `@` `\S+` `.` `\S+` with the `@` at `i` and
   * the `.` at `j`.
   */
  ghost predicate SplitsAt(s: string, lo: int, hi: int, i: int, j: int)
    requires 0 <= lo <= hi <= |s|
  {
    && lo <= i < j < hi
    && s[i] == '@' && s[j] == '.'
    && NonSpaceRun(s, lo, i) && NonSpaceRun(s, i + 1, j) && NonSpaceRun(s, j + 1, hi)
  }

  /** `s[lo..hi]`, as a whole, is in the language of `\S+@\S+\.\S+`. */
  ghost predicate MatchesAt(s: string, lo: int, hi: int)
    requires 0 <= lo <= hi <= |s|
  {
    exists i, j :: SplitsAt(s, lo, hi, i, j)
  }

  /** `/\S+@\S+\.\S+/.test(s)`: the pattern is unanchored, so some substring must match. */
  ghost predicate PatternTest(s: string)
  {
    exists lo, hi | 0 <= lo <= hi <= |s| :: MatchesAt(s, lo, hi)
  }

  /**
   * A shortest match: an `@` at `i` with a non-space character before it, a
   * `.` at `j` with a non-space character after it, and a non-empty run of
   * non-space characters strictly between the two.
   */
  predicate ShapeAt(s: string, i: int, j: int)
  {
    && 0 < i && i + 1 < j && j + 1 < |s|
    && s[i] == '@' && s[j] == '.'
    && !IsSpace(s[i - 1]) && !IsSpace(s[j + 1])
    && NoSpaceIn(s, i + 1, j)
  }

  /** Some shortest match occurs in `s`. */
  predicate HasEmailShape(s: string)
  {
    exists i, j | 0 <= i < |s| && 0 <= j < |s| :: ShapeAt(s, i, j)
  }

  /** The decidable shape agrees with the regular expression's `test`. */
  lemma EmailShapeIffPatternTest(s: string)
    ensures HasEmailShape(s) <==> PatternTest(s)
  {
    if HasEmailShape(s) {
      var i, j :| 0 <= i < |s| && 0 <= j < |s| && ShapeAt(s, i, j);
      assert SplitsAt(s, i - 1, j + 2, i, j);
      assert MatchesAt(s, i - 1, j + 2);
    }
    if PatternTest(s) {
      var lo, hi :| 0 <= lo <= hi <= |s| && MatchesAt(s, lo, hi);
      var i, j :| SplitsAt(s, lo, hi, i, j);
      assert ShapeAt(s, i, j);
    }
  }

  /** The email rule of both forms: the email is non-empty and the pattern test accepts it. */
  function EmailAccepted(email: string): (ok: bool)
    ensures ok <==> email != "" && PatternTest(email)
    ensures email == "" ==> !ok
  {
    EmailShapeIffPatternTest(email);
    !(email == "" || !HasEmailShape(email))
  }

  /** The password rule: neither empty nor shorter than six characters; the emptiness test is subsumed by the length. */
  function PasswordAccepted(password: string): (ok: bool)
    ensures ok <==> |password| >= MinPasswordLength
  {
    !(password == "" || |password| < MinPasswordLength)
  }

  /** The sign-up name rule: neither empty nor shorter than one character, that is, non-empty. */
  function NameAccepted(name: string): (ok: bool)
    ensures ok <==> |name| > 0
  {
    !(name == "" || |name| < 1)
  }

  /** Lower-casing keeps `@`, `.` and the non-space characters each as they were. */
  lemma LowerCharKeepsShape(c: char)
    ensures LowerChar(c) == '@' <==> c == '@'
    ensures LowerChar(c) == '.' <==> c == '.'
    ensures IsSpace(LowerChar(c)) <==> IsSpace(c)
  {
  }

  /** Every case variant of an accepted email is accepted: the rule does not depend on case. */
  lemma CaseVariantAccepted(variant: string, email: string)
    requires SameIgnoringCase(variant, email)
    requires EmailAccepted(email)
    ensures EmailAccepted(variant)
  {
    assert |variant| == |Lower(variant)| == |Lower(email)| == |email|;
    forall k | 0 <= k < |email|
      ensures (variant[k] == '@' <==> email[k] == '@') && (variant[k] == '.' <==> email[k] == '.')
      ensures IsSpace(variant[k]) <==> IsSpace(email[k])
    {
      assert Lower(variant)[k] == Lower(email)[k];
      LowerCharKeepsShape(variant[k]);
      LowerCharKeepsShape(email[k]);
    }
    var i, j :| 0 <= i < |email| && 0 <= j < |email| && ShapeAt(email, i, j);
    assert ShapeAt(variant, i, j);
  }
}
