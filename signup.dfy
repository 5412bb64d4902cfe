/** The sign-up page's submit logic: `validateInputs` and `handleRegistration`. */
module SignUp {
  import opened Wrappers
  import opened Validation
  import opened Effects
  import opened Auth

  const AccountCreatedToast := Toast("Account created successfully", "success")

  /** The sign-up page's error state, its `useAuth()` instance, and the effects it has caused. */
  class SignUpPage {
    const auth: AuthHook
    var emailError: bool
    var emailErrorMessage: string
    var passwordError: bool
    var passwordErrorMessage: string
    var nameError: bool
    var nameErrorMessage: string
    var registrationError: bool
    var registrationErrorMessage: string
    /** Every `navigate(route)` call so far. */
    var navigations: seq<string>
    /** Every `showToast` call so far. */
    var toasts: seq<Toast>

    constructor (auth: AuthHook)
      ensures this.auth == auth
      ensures !emailError && emailErrorMessage == "" && !passwordError && passwordErrorMessage == ""
      ensures !nameError && nameErrorMessage == "" && !registrationError && registrationErrorMessage == ""
      ensures navigations == [] && toasts == []
    {
      this.auth := auth;
      emailError, emailErrorMessage := false, "";
      passwordError, passwordErrorMessage := false, "";
      nameError, nameErrorMessage := false, "";
      registrationError, registrationErrorMessage := false, "";
      navigations, toasts := [], [];
    }

    /**
     * The three checks run in turn, none stopping the others: each field's
     * flag is raised exactly when its check fails, its message is empty
     * exactly when the check passes, and the result says all three passed.
     */
    method ValidateInputs(name: string, email: string, password: string) returns (isValid: bool)
      modifies this`emailError, this`emailErrorMessage, this`passwordError, this`passwordErrorMessage,
               this`nameError, this`nameErrorMessage
      ensures emailError <==> email == "" || !PatternTest(email)
      ensures emailErrorMessage == if emailError then InvalidEmailMessage else ""
      ensures passwordError <==> |password| < MinPasswordLength
      ensures passwordErrorMessage == if passwordError then ShortPasswordMessage else ""
      ensures nameError <==> name == ""
      ensures nameErrorMessage == if nameError then NameRequiredMessage else ""
      ensures isValid <==> !emailError && !passwordError && !nameError
    {
      isValid := true;

      if !EmailAccepted(email) {
        emailError, emailErrorMessage := true, InvalidEmailMessage;
        isValid := false;
      } else {
        emailError, emailErrorMessage := false, "";
      }

      if !PasswordAccepted(password) {
        passwordError, passwordErrorMessage := true, ShortPasswordMessage;
        isValid := false;
      } else {
        passwordError, passwordErrorMessage := false, "";
      }

      if !NameAccepted(name) {
        nameError, nameErrorMessage := true, NameRequiredMessage;
        isValid := false;
      } else {
        nameError, nameErrorMessage := false, "";
      }
    }

    /**
     * Clears the registration error, validates, and only for valid input calls
     * `createUser`; a thrown error becomes the registration error, success
     * navigates to "/" and shows a toast. Resolves to false on invalid input
     * and to nothing (None) otherwise.
     */
    method HandleRegistration(name: string, email: string, password: string, salt: string) returns (r: Option<bool>)
      modifies this, auth, auth.storage
      ensures emailError <==> email == "" || !PatternTest(email)
      ensures emailErrorMessage == if emailError then InvalidEmailMessage else ""
      ensures passwordError <==> |password| < MinPasswordLength
      ensures passwordErrorMessage == if passwordError then ShortPasswordMessage else ""
      ensures nameError <==> name == ""
      ensures nameErrorMessage == if nameError then NameRequiredMessage else ""
      ensures emailError || passwordError || nameError ==>
        && r == Some(false)
        && !registrationError && registrationErrorMessage == ""
        && unchanged(auth, auth.storage)
        && navigations == old(navigations) && toasts == old(toasts)
      ensures !(emailError || passwordError || nameError) ==>
        var step := CreateUserStep(old(auth.State()), auth.hasher, name, email, password, salt);
        && r == None
        && auth.State() == step.next && !auth.isLoading
        && (registrationError <==> step.out.Err?)
        && registrationErrorMessage == (if step.out.Err? then step.out.message else "")
        && navigations == old(navigations) + (if step.out.Ok? then [HomeRoute] else [])
        && toasts == old(toasts) + (if step.out.Ok? then [AccountCreatedToast] else [])
    {
      registrationError := false;
      registrationErrorMessage := "";

      var valid := ValidateInputs(name, email, password);
      if !valid {
        return Some(false);
      }

      r := None;
      var created := auth.CreateUser(name, email, password, salt);
      match created
      case Ok(_) =>
        navigations := navigations + [HomeRoute];
        toasts := toasts + [AccountCreatedToast];
      case Err(message) =>
        registrationError := true;
        registrationErrorMessage := message;
    }
  }
}
