/** The registration form: the checks run before the account is requested,
    in their order, and the messages shown for each outcome. */
module Registration {
  import opened Wrappers

  const MinPasswordLength := 6

  const MismatchError := "Passwords do not match"
  const ShortPasswordError := "Password must be at least 6 characters"
  const SuccessMessage := "Account created successfully! You can now sign in."
  const FallbackError := "Registration failed. Please try again."

  /** The checks before the request, in order: the two passwords must match,
      then the password must have at least six characters. `None` means both
      pass; otherwise the message of the first check that fails. */
  function Validate(password: string, confirmPassword: string): (err: Option<string>)
    ensures err == Some(MismatchError) <==> password != confirmPassword
    ensures err == Some(ShortPasswordError) <==>
              password == confirmPassword && |password| < MinPasswordLength
    ensures err == None <==> password == confirmPassword && |password| >= MinPasswordLength
  {
    if password != confirmPassword then Some(MismatchError)
    else if |password| < MinPasswordLength then Some(ShortPasswordError)
    else None
  }

  /** The error shown when the request fails: the server's message when it
      sent a non-empty one, the fallback text otherwise. */
  function FailureMessage(serverMessage: Option<string>): (m: string)
    ensures m != ""
    ensures serverMessage.Some? && serverMessage.value != "" ==> m == serverMessage.value
    ensures serverMessage.None? || serverMessage.value == "" ==> m == FallbackError
  {
    match serverMessage
    case Some(text) => if text != "" then text else FallbackError
    case None => FallbackError
  }

  /** How the request ended: accepted, or rejected with the message the server
      put in its response body, if any. */
  datatype Outcome = Registered | Rejected(serverMessage: Option<string>)

  /** The arguments of one call to the register service. */
  datatype RegisterCall = RegisterCall(username: string, email: string, password: string)

  class RegisterForm {
    var username: string
    var email: string
    var password: string
    var confirmPassword: string
    var error: string
    var success: string
    var isLoading: bool

    constructor()
      ensures username == "" && email == "" && password == "" && confirmPassword == ""
      ensures error == "" && success == "" && !isLoading
    {
      username := "";
      email := "";
      password := "";
      confirmPassword := "";
      error := "";
      success := "";
      isLoading := false;
    }

    /** Submits the form. Messages are cleared first; a failed check sets its
        message and stops; otherwise register is called once and `outcome` is
        what it produced. Returns the calls made and whether the switch to the
        sign-in view is scheduled. */
    method HandleSubmit(outcome: Outcome) returns (calls: seq<RegisterCall>, switchesToLogin: bool)
      modifies this
      ensures username == old(username) && email == old(email)
      ensures password == old(password) && confirmPassword == old(confirmPassword)
      ensures Validate(password, confirmPassword).Some? ==>
                calls == [] && !switchesToLogin
                && error == Validate(password, confirmPassword).value && success == ""
                && isLoading == old(isLoading)
      ensures Validate(password, confirmPassword).None? ==>
                calls == [RegisterCall(username, email, password)] && !isLoading
      ensures Validate(password, confirmPassword).None? && outcome.Registered? ==>
                error == "" && success == SuccessMessage && switchesToLogin
      ensures Validate(password, confirmPassword).None? && outcome.Rejected? ==>
                error == FailureMessage(outcome.serverMessage) && success == "" && !switchesToLogin
    {
      error := "";
      success := "";
      calls := [];
      switchesToLogin := false;
      if password != confirmPassword {
        error := MismatchError;
        return;
      }
      if |password| < MinPasswordLength {
        error := ShortPasswordError;
        return;
      }
      isLoading := true;
      calls := calls + [RegisterCall(username, email, password)];
      match outcome {
        case Registered =>
          success := SuccessMessage;
          switchesToLogin := true;
        case Rejected(serverMessage) =>
          error := FailureMessage(serverMessage);
      }
      isLoading := false;
    }
  }
}
