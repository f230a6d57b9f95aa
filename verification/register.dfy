/** The registration form: the password-confirmation guard, the busy flag,
    and the mapping from authentication error codes to messages. */
module Register {
  import opened Models

  const PasswordsDiffer := "Passwords do not match."
  const EmailInUse := "This email address is already in use."
  const InvalidEmail := "Please enter a valid email address."
  const WeakPassword := "Password is too weak. Please use a stronger password."
  const NotEnabled := "Email/password accounts are not enabled."
  const RegistrationFailed := "An error occurred during registration. Please try again."

  /** `getErrorMessage(error)` on the error's code. */
  function GetErrorMessage(code: Option<string>): (message: string)
    ensures message in {EmailInUse, InvalidEmail, WeakPassword, NotEnabled, RegistrationFailed}
  {
    if code == Some("auth/email-already-in-use") then EmailInUse
    else if code == Some("auth/invalid-email") then InvalidEmail
    else if code == Some("auth/weak-password") then WeakPassword
    else if code == Some("auth/operation-not-allowed") then NotEnabled
    else RegistrationFailed
  }

  /** Each specific message belongs to exactly one code; every other code
      gets the generic message. */
  lemma ErrorMessageCodes(code: Option<string>)
    ensures GetErrorMessage(code) == EmailInUse <==> code == Some("auth/email-already-in-use")
    ensures GetErrorMessage(code) == InvalidEmail <==> code == Some("auth/invalid-email")
    ensures GetErrorMessage(code) == WeakPassword <==> code == Some("auth/weak-password")
    ensures GetErrorMessage(code) == NotEnabled <==> code == Some("auth/operation-not-allowed")
    ensures GetErrorMessage(code) == RegistrationFailed <==>
      code !in {Some("auth/email-already-in-use"), Some("auth/invalid-email"), Some("auth/weak-password"),
                Some("auth/operation-not-allowed")}
  {
  }

  /** The registration form. */
  class RegisterComponent {
    var displayName: string
    var email: string
    var password: string
    var confirmPassword: string
    var errorMessage: string
    var isLoading: bool

    constructor ()
      ensures displayName == "" && email == "" && password == "" && confirmPassword == ""
      ensures errorMessage == "" && !isLoading
    {
      displayName, email, password, confirmPassword := "", "", "", "";
      errorMessage, isLoading := "", false;
    }

    /** `register()`: differing passwords show the mismatch message and the
        service is not called; otherwise the message is cleared, the
        service's outcome is `outcome`, and the form ends idle, showing the
        error only on failure. Returns whether the service was called. */
    method Register(outcome: AuthOutcome) returns (called: bool)
      modifies this`errorMessage, this`isLoading
      ensures called <==> password == confirmPassword
      ensures !called ==> errorMessage == PasswordsDiffer && isLoading == old(isLoading)
      ensures called ==> !isLoading
      ensures called ==> errorMessage == (if outcome.AuthOk? then "" else GetErrorMessage(outcome.code))
    {
      if password != confirmPassword {
        errorMessage := PasswordsDiffer;
        return false;
      }
      called := true;
      isLoading := true;
      errorMessage := "";
      if outcome.AuthError? {
        errorMessage := GetErrorMessage(outcome.code);
      }
      isLoading := false;
    }
  }
}
