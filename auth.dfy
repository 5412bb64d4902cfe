/**
 * The mock credential store of `useAuth`: the user list and the session email
 * kept in two localStorage entries, the hook's in-memory `currentUser` and
 * `isLoading`, and the operations `isUsernameAvailable`, `createUser`,
 * `authenticate` and `logout`.
 *
 * Every operation is modelled twice: as a pure step function over an
 * `AuthState` snapshot, about which the lemmas below state the properties,
 * and as a method of `AuthHook` that performs the source's steps on the
 * objects and is proved to take exactly that step.
 */
module Auth {
  import opened Wrappers
  import opened Strings
  import opened Hashing
  import opened Users

  const EmailInUse := "Email is already in use"
  const InvalidCredentials := "Invalid email or password"

  /**
   * What the operations observe and change: the `auth_users` slot (None when
   * the key is absent), the `auth_current_user` slot, and the hook's
   * in-memory `currentUser`.
   */
  datatype AuthState = AuthState(
    authUsers: Option<seq<User>>,
    authCurrentUser: Option<string>,
    currentUser: Option<string>)

  /** The state an operation leaves behind and what its promise settles to. */
  datatype Step<T> = Step(next: AuthState, out: Result<T>)

  /** `getUsersFromStorage`: an absent key reads as the empty list. */
  function StoredUsers(slot: Option<seq<User>>): seq<User>
  {
    match slot
    case None => []
    case Some(users) => users
  }

  /** JavaScript truthiness of a `string | null`: `null` and `""` are falsy. */
  predicate Truthy(email: Option<string>)
  {
    email.Some? && email.value != ""
  }

  /**
   * `saveCurrentUserToStorage`: the `auth_current_user` slot after saving
   * `email`, which sets the key for a truthy string and removes it otherwise.
   */
  function SessionSlotAfterSave(email: Option<string>): (slot: Option<string>)
    ensures slot.Some? <==> Truthy(email)
    ensures slot.Some? ==> slot == email && slot.value != ""
  {
    if Truthy(email) then email else None
  }

  /** `isUsernameAvailable(email)` */
  function Available(s: AuthState, email: string): bool
  {
    !AnyEmailMatches(StoredUsers(s.authUsers), email)
  }

  /** `createUser(name, email, password)` when bcrypt draws `salt`. */
  function CreateUserStep(s: AuthState, h: Hasher, name: string, email: string, password: string, salt: string): Step<()>
  {
    var users := StoredUsers(s.authUsers);
    if !Available(s, email) then
      Step(s, Err(EmailInUse))
    else
      Step(s.(authUsers := Some(users + [User(name, Lower(email), h.hash(password, salt))])), Ok(()))
  }

  /** `authenticate(email, password)` */
  function AuthenticateStep(s: AuthState, h: Hasher, email: string, password: string): Step<bool>
  {
    match FindByEmail(StoredUsers(s.authUsers), email)
    case None => Step(s, Err(InvalidCredentials))
    case Some(user) =>
      if !h.compare(password, user.password) then
        Step(s, Err(InvalidCredentials))
      else
        Step(s.(currentUser := Some(email), authCurrentUser := SessionSlotAfterSave(Some(email))), Ok(true))
  }

  /** `logout()` */
  function LogoutStep(s: AuthState): AuthState
  {
    s.(currentUser := None, authCurrentUser := SessionSlotAfterSave(None))
  }

  // ---------------------------------------------------------------------
  // Properties of the operations

  /**
   * `isUsernameAvailable` holds exactly when no stored email equals the given
   * one ignoring case; with the `auth_users` key absent every email is available.
   */
  lemma AvailableIffNoMatch(s: AuthState, email: string)
    ensures Available(s, email) <==>
      forall i | 0 <= i < |StoredUsers(s.authUsers)| ::
        !SameIgnoringCase(StoredUsers(s.authUsers)[i].email, email)
    ensures s.authUsers == None ==> Available(s, email)
  {
  }

  /**
   * `createUser` fails exactly for an email already present in some case
   * variant, with "Email is already in use" and nothing changed; otherwise it
   * appends one record holding the name, the lower-cased email and the digest,
   * keeps the earlier records in order, and leaves the session alone.
   */
  lemma CreateUserOutcome(s: AuthState, h: Hasher, name: string, email: string, password: string, salt: string)
    ensures var step := CreateUserStep(s, h, name, email, password, salt);
      && (step.out.Err? <==> exists i | 0 <= i < |StoredUsers(s.authUsers)| ::
            SameIgnoringCase(StoredUsers(s.authUsers)[i].email, email))
      && (step.out.Err? ==> step == Step(s, Err(EmailInUse)))
      && (step.out.Ok? ==>
            && StoredUsers(step.next.authUsers) ==
                 StoredUsers(s.authUsers) + [User(name, Lower(email), h.hash(password, salt))]
            && step.next.authCurrentUser == s.authCurrentUser
            && step.next.currentUser == s.currentUser)
  {
  }

  /** `createUser` keeps the stored emails lower-case and distinct ignoring case, whether it succeeds or throws. */
  lemma CreateUserKeepsCanonical(s: AuthState, h: Hasher, name: string, email: string, password: string, salt: string)
    requires Canonical(StoredUsers(s.authUsers))
    ensures Canonical(StoredUsers(CreateUserStep(s, h, name, email, password, salt).next.authUsers))
  {
    if Available(s, email) {
      var users := StoredUsers(s.authUsers);
      LowerIsLowerCase(email);
      assert !AnyEmailMatches(users, Lower(email)) by {
        forall i | 0 <= i < |users| ensures !SameIgnoringCase(users[i].email, Lower(email)) {
          assert !SameIgnoringCase(users[i].email, email);
        }
      }
      CanonicalAppend(users, User(name, Lower(email), h.hash(password, salt)));
    }
  }

  /**
   * After a successful `createUser(name, email, password)`, `authenticate`
   * with the same password succeeds for every case variant of the email,
   * provided the hasher's round trip holds.
   */
  lemma RegisteredUserCanAuthenticate(s: AuthState, h: Hasher, name: string, email: string, password: string, salt: string, typed: string)
    requires h.Sound()
    requires CreateUserStep(s, h, name, email, password, salt).out.Ok?
    requires SameIgnoringCase(typed, email)
    ensures AuthenticateStep(CreateUserStep(s, h, name, email, password, salt).next, h, typed, password).out == Ok(true)
  {
    var users := StoredUsers(s.authUsers);
    var u := User(name, Lower(email), h.hash(password, salt));
    assert !AnyEmailMatches(users, typed) by {
      forall i | 0 <= i < |users| ensures !SameIgnoringCase(users[i].email, typed) {
        assert !SameIgnoringCase(users[i].email, email);
      }
    }
    LowerIsLowerCase(email);
    FindAppended(users, u, typed);
    assert h.compare(password, h.hash(password, salt));
  }

  /**
   * After a successful registration every case variant of the email is taken:
   * registering it again throws "Email is already in use" and changes nothing,
   * and the appended record is the only one that matches the email.
   */
  lemma SecondRegistrationRejected(s: AuthState, h: Hasher, name: string, email: string, password: string, salt: string,
                                   name2: string, email2: string, password2: string, salt2: string)
    requires CreateUserStep(s, h, name, email, password, salt).out.Ok?
    requires SameIgnoringCase(email2, email)
    ensures var s1 := CreateUserStep(s, h, name, email, password, salt).next;
      var users := StoredUsers(s1.authUsers);
      && !Available(s1, email2)
      && CreateUserStep(s1, h, name2, email2, password2, salt2) == Step(s1, Err(EmailInUse))
      && |users| > 0 && SameIgnoringCase(users[|users| - 1].email, email)
      && forall i | 0 <= i < |users| && SameIgnoringCase(users[i].email, email) :: i == |users| - 1
  {
    var users0 := StoredUsers(s.authUsers);
    var users := StoredUsers(CreateUserStep(s, h, name, email, password, salt).next.authUsers);
    LowerIsLowerCase(email);
    assert forall i | 0 <= i < |users0| :: users[i] == users0[i];
    assert SameIgnoringCase(users[|users0|].email, email2);
  }

  /**
   * `authenticate` succeeds exactly when some stored email matches ignoring
   * case and the password compares equal to the first such record's digest.
   * An unknown email and a wrong password fail with the one message
   * "Invalid email or password" and leave every slot and `currentUser` unchanged.
   */
  lemma AuthenticateOutcome(s: AuthState, h: Hasher, email: string, password: string)
    ensures var step := AuthenticateStep(s, h, email, password);
      && (step.out.Ok? <==>
            exists i | 0 <= i < |StoredUsers(s.authUsers)| ::
              && SameIgnoringCase(StoredUsers(s.authUsers)[i].email, email)
              && (forall k | 0 <= k < i :: !SameIgnoringCase(StoredUsers(s.authUsers)[k].email, email))
              && h.compare(password, StoredUsers(s.authUsers)[i].password))
      && (step.out.Err? ==> step == Step(s, Err(InvalidCredentials)))
  {
    var users := StoredUsers(s.authUsers);
    var step := AuthenticateStep(s, h, email, password);
    var r := FindByEmail(users, email);
    if r.Some? {
      var i :| 0 <= i < |users| && users[i] == r.value && SameIgnoringCase(users[i].email, email)
               && forall k | 0 <= k < i :: !SameIgnoringCase(users[k].email, email);
    }
  }

  /**
   * A successful `authenticate` resolves to true and records the email exactly
   * as typed (not lower-cased) as `currentUser` and, unless it is "", under
   * `auth_current_user`; the user list is untouched.
   */
  lemma AuthenticateRecordsTypedEmail(s: AuthState, h: Hasher, email: string, password: string)
    requires AuthenticateStep(s, h, email, password).out.Ok?
    ensures var step := AuthenticateStep(s, h, email, password);
      && step.out.value
      && step.next.currentUser == Some(email)
      && step.next.authCurrentUser == (if email == "" then None else Some(email))
      && step.next.authUsers == s.authUsers
  {
  }

  /** `logout` clears both the in-memory and the stored session, and doing it twice is doing it once. */
  lemma LogoutIdempotent(s: AuthState)
    ensures LogoutStep(s).currentUser == None && LogoutStep(s).authCurrentUser == None
    ensures LogoutStep(s).authUsers == s.authUsers
    ensures LogoutStep(LogoutStep(s)) == LogoutStep(s)
  {
  }

  // ---------------------------------------------------------------------
  // The objects

  /** The two localStorage entries the hook owns; shared by every hook instance. */
  class AuthStorage {
    /** `auth_users`; None when the key is absent. */
    var authUsers: Option<seq<User>>
    /** `auth_current_user`; None when the key is absent. */
    var authCurrentUser: Option<string>

    constructor (users: Option<seq<User>>, current: Option<string>)
      ensures authUsers == users && authCurrentUser == current
    {
      authUsers := users;
      authCurrentUser := current;
    }

    /** `getUsersFromStorage` */
    function GetUsersFromStorage(): seq<User>
      reads this
    {
      StoredUsers(authUsers)
    }

    /** `saveUsersToStorage`: reading back yields exactly the list written. */
    method SaveUsersToStorage(users: seq<User>)
      modifies this`authUsers
      ensures authUsers == Some(users)
      ensures GetUsersFromStorage() == users
    {
      authUsers := Some(users);
    }

    /** `getCurrentUserFromStorage` */
    function GetCurrentUserFromStorage(): Option<string>
      reads this
    {
      authCurrentUser
    }

    /** `saveCurrentUserToStorage`: sets the key for a truthy email, removes it otherwise. */
    method SaveCurrentUserToStorage(email: Option<string>)
      modifies this`authCurrentUser
      ensures authCurrentUser == SessionSlotAfterSave(email)
      ensures Truthy(email) ==> GetCurrentUserFromStorage() == email
      ensures !Truthy(email) ==> GetCurrentUserFromStorage() == None
    {
      if Truthy(email) {
        authCurrentUser := email;
      } else {
        authCurrentUser := None;
      }
    }
  }

  /** One `useAuth()` instance: its own `currentUser` and `isLoading` over the shared storage. */
  class AuthHook {
    const storage: AuthStorage
    const hasher: Hasher
    var currentUser: Option<string>
    var isLoading: bool

    ghost function State(): AuthState
      reads this, storage
    {
      AuthState(storage.authUsers, storage.authCurrentUser, currentUser)
    }

    /** Mounting the hook seeds `currentUser` from `auth_current_user`. */
    constructor (storage: AuthStorage, hasher: Hasher)
      ensures this.storage == storage && this.hasher == hasher
      ensures currentUser == storage.authCurrentUser && !isLoading
    {
      this.storage := storage;
      this.hasher := hasher;
      currentUser := storage.GetCurrentUserFromStorage();
      isLoading := false;
    }

    method IsUsernameAvailable(email: string) returns (available: bool)
      modifies this`isLoading
      ensures available == Available(State(), email)
      ensures !isLoading
    {
      isLoading := true;
      var users := storage.GetUsersFromStorage();
      available := !AnyEmailMatches(users, email);
      isLoading := false;
    }

    method CreateUser(name: string, email: string, password: string, salt: string) returns (r: Result<()>)
      modifies this`isLoading, storage`authUsers
      ensures Step(State(), r) == CreateUserStep(old(State()), hasher, name, email, password, salt)
      ensures !isLoading
    {
      isLoading := true;
      var users := storage.GetUsersFromStorage();
      var available := IsUsernameAvailable(email);
      if !available {
        isLoading := false;
        return Err(EmailInUse);
      }
      var hashedPassword := hasher.hash(password, salt);
      users := users + [User(name, Lower(email), hashedPassword)];
      storage.SaveUsersToStorage(users);
      isLoading := false;
      r := Ok(());
    }

    method Authenticate(email: string, password: string) returns (r: Result<bool>)
      modifies this, storage`authCurrentUser
      ensures Step(State(), r) == AuthenticateStep(old(State()), hasher, email, password)
      ensures !isLoading
    {
      isLoading := true;
      var users := storage.GetUsersFromStorage();
      var user := FindByEmail(users, email);
      if user.None? {
        isLoading := false;
        return Err(InvalidCredentials);
      }
      var isMatch := hasher.compare(password, user.value.password);
      if !isMatch {
        isLoading := false;
        return Err(InvalidCredentials);
      }
      currentUser := Some(email);
      storage.SaveCurrentUserToStorage(Some(email));
      isLoading := false;
      r := Ok(true);
    }

    method Logout()
      modifies this, storage`authCurrentUser
      ensures State() == LogoutStep(old(State()))
      ensures !isLoading
    {
      isLoading := true;
      currentUser := None;
      storage.SaveCurrentUserToStorage(None);
      isLoading := false;
    }
  }
}
