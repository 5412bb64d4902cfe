/** The user records held under `auth_users`, and the two searches over them. */
module Users {
  import opened Wrappers
  import opened Strings

  /** A registered user; `password` holds the digest, never the plaintext. */
  datatype User = User(name: string, email: string, password: string)

  /** The `some` scan over the stored records: does any email, lower-cased, equal the given email lower-cased? */
  function AnyEmailMatches(users: seq<User>, email: string): (r: bool)
    ensures r <==> exists i | 0 <= i < |users| :: SameIgnoringCase(users[i].email, email)
  {
    if users == [] then false
    else if SameIgnoringCase(users[0].email, email) then true
    else
      var rest := AnyEmailMatches(users[1..], email);
      assert forall i | 1 <= i < |users| :: users[i] == users[1..][i - 1];
      rest
  }

  /**
   * The `find` scan over the stored records: the FIRST user whose email,
   * lower-cased, equals the given email lower-cased, if any.
   */
  function FindByEmail(users: seq<User>, email: string): (r: Option<User>)
    ensures r.None? <==> !AnyEmailMatches(users, email)
    ensures r.Some? ==>
      exists i | 0 <= i < |users| ::
        && users[i] == r.value
        && SameIgnoringCase(users[i].email, email)
        && forall k | 0 <= k < i :: !SameIgnoringCase(users[k].email, email)
  {
    if users == [] then None
    else if SameIgnoringCase(users[0].email, email) then Some(users[0])
    else
      var rest := FindByEmail(users[1..], email);
      assert forall i | 1 <= i < |users| :: users[i] == users[1..][i - 1];
      rest
  }

  /**
   * The repository invariant: every stored email is lower-case, and no two
   * stored emails are equal ignoring case.
   */
  predicate Canonical(users: seq<User>)
  {
    && (forall i | 0 <= i < |users| :: IsLowerCase(users[i].email))
    && (forall i, j | 0 <= i < j < |users| :: !SameIgnoringCase(users[i].email, users[j].email))
  }

  /** Appending a lower-case email that no stored email matches keeps the invariant. */
  lemma CanonicalAppend(users: seq<User>, u: User)
    requires Canonical(users)
    requires IsLowerCase(u.email)
    requires !AnyEmailMatches(users, u.email)
    ensures Canonical(users + [u])
  {
    var all := users + [u];
    forall i, j | 0 <= i < j < |all|
      ensures !SameIgnoringCase(all[i].email, all[j].email)
    {
      if j == |users| {
        assert all[i] == users[i];
      }
    }
  }

  /** Under the invariant an email matches at most one stored record. */
  lemma CanonicalMatchesAtMostOnce(users: seq<User>, email: string, i: int, j: int)
    requires Canonical(users)
    requires 0 <= i < |users| && 0 <= j < |users|
    requires SameIgnoringCase(users[i].email, email) && SameIgnoringCase(users[j].email, email)
    ensures i == j
  {
    if i < j {
      assert SameIgnoringCase(users[i].email, users[j].email);
    } else if j < i {
      assert SameIgnoringCase(users[j].email, users[i].email);
    }
  }

  /**
   * When no earlier record matches, `find` on the list with `u` appended
   * returns `u` for every email that matches `u`'s.
   */
  lemma {:induction false} FindAppended(users: seq<User>, u: User, email: string)
    requires !AnyEmailMatches(users, email)
    requires SameIgnoringCase(u.email, email)
    ensures FindByEmail(users + [u], email) == Some(u)
  {
    var all := users + [u];
    var r := FindByEmail(all, email);
    assert all[|users|] == u;
    assert r.Some?;
    var i :| 0 <= i < |all| && all[i] == r.value && SameIgnoringCase(all[i].email, email);
    assert forall k | 0 <= k < |users| :: all[k] == users[k];
  }
}
