/** Whole flows through the store and the two pages. */
module Scenarios {
  import opened Wrappers
  import opened Strings
  import opened Hashing
  import opened Validation
  import opened Effects
  import opened Auth
  import SignUp
  import SignIn

  /**
   * Register Alice, find her email taken in another case, sign in with a third
   * case variant, and sign out again, starting from empty storage.
   */
  lemma AliceSession(h: Hasher, salt: string)
    requires h.Sound()
    ensures var s0 := AuthState(None, None, None);
      var reg := CreateUserStep(s0, h, "Alice", "Alice@Example.com", "secret1", salt);
      var login := AuthenticateStep(reg.next, h, "ALICE@example.com", "secret1");
      && reg.out == Ok(())
      && !Available(reg.next, "alice@example.com")
      && login.out == Ok(true)
      && login.next.currentUser == Some("ALICE@example.com")
      && login.next.authCurrentUser == Some("ALICE@example.com")
      && LogoutStep(login.next).currentUser == None
      && LogoutStep(login.next).authCurrentUser == None
  {
    var s0 := AuthState(None, None, None);
    assert Available(s0, "Alice@Example.com");
    assert Lower("alice@example.com") == Lower("Alice@Example.com");
    assert Lower("ALICE@example.com") == Lower("Alice@Example.com");
    RegisteredUserCanAuthenticate(s0, h, "Alice", "Alice@Example.com", "secret1", salt, "ALICE@example.com");
    var reg := CreateUserStep(s0, h, "Alice", "Alice@Example.com", "secret1", salt);
    var users := StoredUsers(reg.next.authUsers);
    assert users[0].email == Lower("Alice@Example.com");
  }

  /** Signing in with an unknown email fails with the generic message and changes nothing. */
  lemma UnknownEmailRejected(h: Hasher, s: AuthState, email: string, password: string)
    requires Available(s, email)
    ensures AuthenticateStep(s, h, email, password) == Step(s, Err(InvalidCredentials))
  {
    AuthenticateOutcome(s, h, email, password);
  }

  /**
   * On fresh storage, submitting valid sign-up data navigates to "/", and a
   * separate sign-in page over the same storage then accepts the same password
   * under any case variant of the email and navigates to "/dashboard",
   * leaving that variant as the session.
   */
  method SignUpThenSignIn(h: Hasher, name: string, email: string, password: string, salt: string, typed: string)
    returns (signUpRoutes: seq<string>, signInRoutes: seq<string>, session: Option<string>, loginFailed: bool)
    requires h.Sound()
    requires NameAccepted(name) && EmailAccepted(email) && PasswordAccepted(password)
    requires SameIgnoringCase(typed, email)
    ensures signUpRoutes == [HomeRoute]
    ensures signInRoutes == [DashboardRoute]
    ensures session == Some(typed)
    ensures !loginFailed
  {
    var storage := new AuthStorage(None, None);
    var signUpAuth := new AuthHook(storage, h);
    var signUpPage := new SignUp.SignUpPage(signUpAuth);
    ghost var s0 := signUpAuth.State();
    assert Available(s0, email);
    var _ := signUpPage.HandleRegistration(name, email, password, salt);
    signUpRoutes := signUpPage.navigations;

    var signInAuth := new AuthHook(storage, h);
    var signInPage := new SignIn.SignInPage(signInAuth);
    CaseVariantAccepted(typed, email);
    RegisteredUserCanAuthenticate(s0, h, name, email, password, salt, typed);
    AuthenticateRecordsTypedEmail(signInAuth.State(), h, typed, password);
    var _ := signInPage.HandleLogin(typed, password);
    signInRoutes := signInPage.navigations;
    session := storage.authCurrentUser;
    loginFailed := signInPage.loginError;
  }
}
