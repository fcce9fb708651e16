/** The sign-in / sign-up form of app/auth/page.tsx. The auth provider's
    answer is a parameter (`None` for success, `Some(message)` for an
    error), and the request the form sends it is returned. */
module AuthPage {
  import opened Js

  const MismatchMessage := "Las contraseñas no coinciden"
  const TooShortMessage := "La contraseña debe tener al menos 6 caracteres"
  const SignUpSuccessMessage := "¡Cuenta creada! Revisa tu email para confirmar tu cuenta."
  const MinPasswordLength := 6

  /** What the form asks of the auth provider. */
  datatype Request =
    | SignInWithPassword(email: string, password: string)
    | SignUp(email: string, password: string, emailRedirectTo: string)

  /** The sign-up checks in their order: a mismatch is reported before a
      short password; `None` lets the request through. */
  function SignUpCheck(password: string, confirmPassword: string): (r: Option<string>)
    ensures r == Some(MismatchMessage) <==> password != confirmPassword
    ensures r == Some(TooShortMessage) <==> password == confirmPassword && |password| < MinPasswordLength
    ensures r.None? <==> password == confirmPassword && |password| >= MinPasswordLength
  {
    if password != confirmPassword then Some(MismatchMessage)
    else if |password| < MinPasswordLength then Some(TooShortMessage)
    else None
  }

  /** `NEXT_PUBLIC_DEV_SUPABASE_REDIRECT_URL || window.location.origin`:
      the variable wins when it is set and not empty. */
  function RedirectTo(configured: Option<string>, origin: string): (r: string)
    ensures configured.Some? && configured.value != "" ==> r == configured.value
    ensures configured.None? || configured.value == "" ==> r == origin
  {
    if configured.Some? && configured.value != "" then configured.value else origin
  }

  class Form {
    var isSignUp: bool
    var email: string
    var password: string
    var confirmPassword: string
    var error: Option<string>
    var isLoading: bool
    var successMessage: Option<string>

    constructor ()
      ensures !isSignUp && email == "" && password == "" && confirmPassword == ""
      ensures error == None && !isLoading && successMessage == None
    {
      isSignUp := false;
      email := "";
      password := "";
      confirmPassword := "";
      error := None;
      isLoading := false;
      successMessage := None;
    }

    /** The inputs' `onChange` setters. */
    method Type(newEmail: string, newPassword: string, newConfirmPassword: string)
      modifies this
      ensures email == newEmail && password == newPassword && confirmPassword == newConfirmPassword
      ensures isSignUp == old(isSignUp) && error == old(error) && isLoading == old(isLoading)
      ensures successMessage == old(successMessage)
    {
      email, password, confirmPassword := newEmail, newPassword, newConfirmPassword;
    }

    /** `handleSignIn`: clear the error, show loading, send the request; on
        an error store its message and stop loading, otherwise navigate
        home (loading stays on while the page is left). */
    method HandleSignIn(answer: Option<string>) returns (request: Request, navigateHome: bool)
      modifies this
      ensures request == SignInWithPassword(old(email), old(password))
      ensures answer.Some? ==> error == answer && !isLoading && !navigateHome
      ensures answer.None? ==> error == None && isLoading && navigateHome
      ensures isSignUp == old(isSignUp) && email == old(email) && password == old(password)
      ensures confirmPassword == old(confirmPassword) && successMessage == old(successMessage)
    {
      error := None;
      isLoading := true;
      request := SignInWithPassword(email, password);
      if answer.Some? {
        error := Some(answer.value);
        isLoading := false;
        navigateHome := false;
        return;
      }
      navigateHome := true;
    }

    /** `handleSignUp`: clear both messages; a failed check sets its
        message and sends nothing; otherwise send the request and report
        the provider's error or the success message, loading off. */
    method HandleSignUp(answer: Option<string>, configured: Option<string>, origin: string)
      returns (request: Option<Request>)
      modifies this
      ensures var check := SignUpCheck(old(password), old(confirmPassword));
              && (check.Some? ==> request == None && error == check && successMessage == None
                                  && isLoading == old(isLoading))
              && (check.None? ==> request == Some(SignUp(old(email), old(password), RedirectTo(configured, origin)))
                                  && !isLoading
                                  && (answer.Some? ==> error == answer && successMessage == None)
                                  && (answer.None? ==> error == None && successMessage == Some(SignUpSuccessMessage)))
      ensures isSignUp == old(isSignUp) && email == old(email) && password == old(password)
      ensures confirmPassword == old(confirmPassword)
    {
      error := None;
      successMessage := None;
      if password != confirmPassword {
        error := Some(MismatchMessage);
        return None;
      }
      if |password| < MinPasswordLength {
        error := Some(TooShortMessage);
        return None;
      }
      isLoading := true;
      request := Some(SignUp(email, password, RedirectTo(configured, origin)));
      if answer.Some? {
        error := Some(answer.value);
        isLoading := false;
        return;
      }
      successMessage := Some(SignUpSuccessMessage);
      isLoading := false;
    }

    /** `switchMode`: flip the mode and clear the messages and both
        passwords; the email stays. */
    method SwitchMode()
      modifies this
      ensures isSignUp == !old(isSignUp)
      ensures error == None && successMessage == None && password == "" && confirmPassword == ""
      ensures email == old(email) && isLoading == old(isLoading)
    {
      isSignUp := !isSignUp;
      error := None;
      successMessage := None;
      password := "";
      confirmPassword := "";
    }
  }

  /** A mismatched pair is reported as a mismatch even when it is also too
      short. */
  lemma MismatchBeforeLength(password: string, confirmPassword: string)
    requires password != confirmPassword && |password| < MinPasswordLength
    ensures SignUpCheck(password, confirmPassword) == Some(MismatchMessage)
  {
  }
}
