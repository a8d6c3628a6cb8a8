/**
  The sign-in / sign-up panel: its two field rules, which identity-provider
  call a submit makes, and the `isLoading` / `isLogin` flags.  The provider's
  answer (did the call succeed) is a parameter: what it does is not part of
  this model.
*/
module LoginPanel {
  import opened Wrappers
  import opened FormRules

  /** The identity-provider calls the panel can make. */
  datatype AuthCall =
    | SignIn(email: string, password: string)   // `login`
    | SignUp(email: string, password: string)   // `signup`
    | GoogleSignIn                              // `signInWithGoogle`

  /** The form's `errors` object for the email and password fields. */
  function LoginErrors(email: string, password: string): (errs: map<string, string>)
    ensures "email" in errs <==> EmailError(email).Some?
    ensures "password" in errs <==> PasswordError(password).Some?
    ensures errs.Keys <= {"email", "password"}
  {
    (match EmailError(email) case Some(m) => map["email" := m] case None => map[]) +
    (match PasswordError(password) case Some(m) => map["password" := m] case None => map[])
  }

  /** The form reaches its handler exactly when the email matches the pattern and the password has 6 characters or more. */
  lemma {:induction false} LoginAcceptedExactly(email: string, password: string)
    ensures LoginErrors(email, password) == map[] <==> EmailPattern(email) && |password| >= 6
  {
    AcceptedEmailsMatchPattern(email);
    var errs := LoginErrors(email, password);
    if errs != map[] {
      var k :| k in errs;
    }
  }

  /** The call a form submit makes: `login` in sign-in mode, `signup` otherwise, with the entered credentials. */
  function SubmitCall(isLogin: bool, email: string, password: string): (c: AuthCall)
    ensures c.SignIn? <==> isLogin
    ensures c.SignUp? <==> !isLogin
    ensures !c.GoogleSignIn? && c.email == email && c.password == password
  {
    if isLogin then SignIn(email, password) else SignUp(email, password)
  }

  class Panel {
    var isLogin: bool
    var isLoading: bool

    /** The panel opens in sign-in mode, idle. */
    constructor ()
      ensures isLogin && !isLoading
    {
      isLogin, isLoading := true, false;
    }

    /**
      `onSubmit`: one provider call, chosen by the mode, with `isLoading` on
      during it and off after it; `onClose` runs only when the call succeeded
      and the panel was given one.  The mode does not change.
    */
    method OnSubmit(email: string, password: string, succeeded: bool, hasOnClose: bool)
      returns (call: AuthCall, loadingDuringCall: bool, closed: bool)
      modifies this`isLoading
      ensures call == SubmitCall(isLogin, email, password)
      ensures loadingDuringCall && !isLoading
      ensures closed <==> succeeded && hasOnClose
    {
      isLoading := true;
      loadingDuringCall := isLoading;
      if isLogin {
        call := SignIn(email, password);
      } else {
        call := SignUp(email, password);
      }
      isLoading := false;
      closed := succeeded && hasOnClose;
    }

    /** `handleSubmit(onSubmit)`: the field rules run first; no call is made on an invalid form. */
    method HandleSubmit(email: string, password: string, succeeded: bool, hasOnClose: bool)
      returns (errors: map<string, string>, call: Option<AuthCall>, closed: bool)
      modifies this`isLoading
      ensures errors == LoginErrors(email, password)
      ensures call.Some? <==> errors == map[]
      ensures call.Some? ==> call.value == SubmitCall(isLogin, email, password) && !isLoading
      ensures call.None? ==> isLoading == old(isLoading)
      ensures closed <==> call.Some? && succeeded && hasOnClose
    {
      errors := LoginErrors(email, password);
      if errors != map[] {
        return errors, None, false;
      }
      var c, busy;
      c, busy, closed := OnSubmit(email, password, succeeded, hasOnClose);
      call := Some(c);
    }

    /** `handleGoogleSignIn`: no field rules; `isLoading` around the call, `onClose` only on success. */
    method GoogleSignIn(succeeded: bool, hasOnClose: bool)
      returns (call: AuthCall, loadingDuringCall: bool, closed: bool)
      modifies this`isLoading
      ensures call == AuthCall.GoogleSignIn
      ensures loadingDuringCall && !isLoading
      ensures closed <==> succeeded && hasOnClose
    {
      isLoading := true;
      loadingDuringCall := isLoading;
      call := AuthCall.GoogleSignIn;
      isLoading := false;
      closed := succeeded && hasOnClose;
    }

    /** The footer button: flips between sign-in and sign-up. */
    method ToggleMode()
      modifies this`isLogin
      ensures isLogin == !old(isLogin)
    {
      isLogin := !isLogin;
    }
  }
}
