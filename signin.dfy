/** The sign-in page's submit logic: `validateInputs` and `handleLogin`. */
module SignIn {
  import opened Wrappers
  import opened Validation
  import opened Effects
  import opened Auth

  const LoggedInToast := Toast("Successfully logged in", "success")

  /** The sign-in page's error state, its `useAuth()` instance, and the effects it has caused. */
  class SignInPage {
    const auth: AuthHook
    var emailError: bool
    var emailErrorMessage: string
    var loginError: bool
    var loginErrorMessage: string
    var passwordError: bool
    var passwordErrorMessage: string
    /** Every `navigate(route)` call so far. */
    var navigations: seq<string>
    /** Every `showToast` call so far. */
    var toasts: seq<Toast>

    constructor (auth: AuthHook)
      ensures this.auth == auth
      ensures !emailError && emailErrorMessage == "" && !passwordError && passwordErrorMessage == ""
      ensures !loginError && loginErrorMessage == ""
      ensures navigations == [] && toasts == []
    {
      this.auth := auth;
      emailError, emailErrorMessage := false, "";
      loginError, loginErrorMessage := false, "";
      passwordError, passwordErrorMessage := false, "";
      navigations, toasts := [], [];
    }

    /**
     * Resets both fields' errors, then runs the email and the password check
     * (there is no name check): a field ends flagged, with its message, exactly
     * when its check fails, and clear otherwise; the result says both passed.
     */
    method ValidateInputs(email: string, password: string) returns (isValid: bool)
      modifies this`emailError, this`emailErrorMessage, this`passwordError, this`passwordErrorMessage
      ensures emailError <==> email == "" || !PatternTest(email)
      ensures emailErrorMessage == if emailError then InvalidEmailMessage else ""
      ensures passwordError <==> |password| < MinPasswordLength
      ensures passwordErrorMessage == if passwordError then ShortPasswordMessage else ""
      ensures isValid <==> !emailError && !passwordError
    {
      isValid := true;
      emailError, emailErrorMessage := false, "";
      passwordError, passwordErrorMessage := false, "";

      if !EmailAccepted(email) {
        emailError, emailErrorMessage := true, InvalidEmailMessage;
        isValid := false;
      }

      if !PasswordAccepted(password) {
        passwordError, passwordErrorMessage := true, ShortPasswordMessage;
        isValid := false;
      }
    }

    /**
     * Clears the login error, validates, and only for valid input calls
     * `authenticate`; a thrown error becomes the login error, and only a
     * promise resolving to true navigates to "/dashboard" and shows a toast.
     * Resolves to false on invalid input and to nothing (None) otherwise.
     */
    method HandleLogin(email: string, password: string) returns (r: Option<bool>)
      modifies this, auth, auth.storage
      ensures emailError <==> email == "" || !PatternTest(email)
      ensures emailErrorMessage == if emailError then InvalidEmailMessage else ""
      ensures passwordError <==> |password| < MinPasswordLength
      ensures passwordErrorMessage == if passwordError then ShortPasswordMessage else ""
      ensures emailError || passwordError ==>
        && r == Some(false)
        && !loginError && loginErrorMessage == ""
        && unchanged(auth, auth.storage)
        && navigations == old(navigations) && toasts == old(toasts)
      ensures !(emailError || passwordError) ==>
        var step := AuthenticateStep(old(auth.State()), auth.hasher, email, password);
        && r == None
        && auth.State() == step.next && !auth.isLoading
        && (loginError <==> step.out.Err?)
        && loginErrorMessage == (if step.out.Err? then step.out.message else "")
        && navigations == old(navigations) + (if step.out == Ok(true) then [DashboardRoute] else [])
        && toasts == old(toasts) + (if step.out == Ok(true) then [LoggedInToast] else [])
    {
      loginErrorMessage := "";
      loginError := false;

      var valid := ValidateInputs(email, password);
      if !valid {
        return Some(false);
      }

      r := None;
      var authenticated := auth.Authenticate(email, password);
      match authenticated
      case Ok(ok) =>
        if ok {
          navigations := navigations + [DashboardRoute];
          toasts := toasts + [LoggedInToast];
        }
      case Err(message) =>
        loginError := true;
        loginErrorMessage := message;
    }
  }
}
