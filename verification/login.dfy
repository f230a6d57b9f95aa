/** The login form: the empty-field guard, the busy flag, and the mapping
    from authentication error codes to messages. */
module Login {
  import opened Models

  const UserNotFound := "User does not exist."
  const InvalidCredentials := "Invalid email or password."
  const InvalidEmail := "Please enter a valid email address."
  const UserDisabled := "This account has been disabled."
  const TooManyRequests := "Too many unsuccessful login attempts. Please try again later."

  /** `getErrorMessage(error)` on the error's code. */
  function GetErrorMessage(code: Option<string>): (message: string)
    ensures message in {UserNotFound, InvalidCredentials, InvalidEmail, UserDisabled, TooManyRequests}
  {
    if code == Some("auth/user-not-found") || code == Some("auth/wrong-password") then
      if code == Some("auth/user-not-found") then UserNotFound else InvalidCredentials
    else if code == Some("auth/invalid-email") then InvalidEmail
    else if code == Some("auth/user-disabled") then UserDisabled
    else if code == Some("auth/too-many-requests") then TooManyRequests
    else InvalidCredentials
  }

  /** Each specific message belongs to exactly one code; every other code,
      a wrong password included, gets the generic message. */
  lemma ErrorMessageCodes(code: Option<string>)
    ensures GetErrorMessage(code) == UserNotFound <==> code == Some("auth/user-not-found")
    ensures GetErrorMessage(code) == InvalidEmail <==> code == Some("auth/invalid-email")
    ensures GetErrorMessage(code) == UserDisabled <==> code == Some("auth/user-disabled")
    ensures GetErrorMessage(code) == TooManyRequests <==> code == Some("auth/too-many-requests")
    ensures GetErrorMessage(code) == InvalidCredentials <==>
      code !in {Some("auth/user-not-found"), Some("auth/invalid-email"), Some("auth/user-disabled"),
                Some("auth/too-many-requests")}
  {
  }

  /** The login form. */
  class LoginComponent {
    var email: string
    var password: string
    var errorMessage: string
    var isLoading: bool

    constructor ()
      ensures email == "" && password == "" && errorMessage == "" && !isLoading
    {
      email, password, errorMessage, isLoading := "", "", "", false;
    }

    /** `login()`: with an empty field nothing happens and the service is
        not called; otherwise the service's outcome is `outcome`, and once
        the attempt completes the form is idle and shows the error only on
        failure. Returns whether the service was called. */
    method Login(outcome: AuthOutcome) returns (called: bool)
      modifies this`errorMessage, this`isLoading
      ensures called <==> email != "" && password != ""
      ensures !called ==> errorMessage == old(errorMessage) && isLoading == old(isLoading)
      ensures called ==> !isLoading
      ensures called ==> errorMessage == (if outcome.AuthOk? then "" else GetErrorMessage(outcome.code))
    {
      if email == "" || password == "" {
        return false;
      }
      called := true;
      isLoading := true;
      errorMessage := "";
      if outcome.AuthError? {
        errorMessage := GetErrorMessage(outcome.code);
      }
      isLoading := false;
    }
  }
}
