/** The registration page: one submit at a time, and the error text shown
    when sign-up fails. */
module RegisterPage {
  import opened Common
  import opened Strings
  import Api

  const RegisterFallback := "Failed to register"
  const EmailInUse := "This email address is already in use. Please use a different email or login instead."
  const WeakPassword := "Password is too weak. Please use a stronger password."
  const InvalidEmail := "Invalid email format. Please check your email address."

  /** The text shown for what sign-up threw: an `Error`'s message, replaced
      by a clearer one when it mentions (case-sensitively) "email" and
      "use", else "password" and "weak" or "strong", else "invalid" and
      "email"; the first rule that applies wins. Anything else thrown shows
      the fallback. */
  function ShownError(t: Thrown): (m: string)
    ensures t.OtherValue? ==> m == RegisterFallback
    ensures t.ErrorObject? && Contains(t.message, "email") && Contains(t.message, "use") ==> m == EmailInUse
    ensures t.ErrorObject? && !(Contains(t.message, "email") && Contains(t.message, "use"))
            && Contains(t.message, "password") && (Contains(t.message, "weak") || Contains(t.message, "strong"))
            ==> m == WeakPassword
    ensures t.ErrorObject? && !(Contains(t.message, "email") && Contains(t.message, "use"))
            && !(Contains(t.message, "password") && (Contains(t.message, "weak") || Contains(t.message, "strong")))
            && Contains(t.message, "invalid") && Contains(t.message, "email")
            ==> m == InvalidEmail
    ensures t.ErrorObject? && !(Contains(t.message, "email") && Contains(t.message, "use"))
            && !(Contains(t.message, "password") && (Contains(t.message, "weak") || Contains(t.message, "strong")))
            && !(Contains(t.message, "invalid") && Contains(t.message, "email"))
            ==> m == t.message
  {
    match t
    case OtherValue => RegisterFallback
    case ErrorObject(msg) =>
      if Contains(msg, "email") && Contains(msg, "use") then EmailInUse
      else if Contains(msg, "password") && (Contains(msg, "weak") || Contains(msg, "strong")) then WeakPassword
      else if Contains(msg, "invalid") && Contains(msg, "email") then InvalidEmail
      else msg
  }

  /** A message about an email address in use gets the clearer text. */
  lemma EmailInUseMessageReworded()
    ensures ShownError(ErrorObject("email already in use")) == EmailInUse
  {
    var s := "email already in use";
    assert OccursAt(s, "email", 0);
    assert OccursAt(s, "use", 17);
  }

  /** The match is case-sensitive: an upper-case message is shown as it is. */
  lemma UpperCaseMessageShownAsIs()
    ensures ShownError(ErrorObject("EMAIL IN USE")) == "EMAIL IN USE"
  {
    var s := "EMAIL IN USE";
    ContainsChar(s, "email", 0);
    ContainsChar(s, "password", 0);
    ContainsChar(s, "invalid", 0);
  }

  /** The sign-up fallback mentions none of the words the rules look for. */
  lemma SignupFallbackHasNoKeyword()
    ensures var s := Api.Fallback(Api.SignupUser);
      !Contains(s, "email") && !Contains(s, "password") && !Contains(s, "invalid")
  {
    var s := "Failed to sign up";
    assert Api.Fallback(Api.SignupUser) == s;
    ContainsChar(s, "email", 1);
    ContainsChar(s, "password", 4);
    ContainsChar(s, "invalid", 2);
  }

  /** When the sign-up reply carries no error text, the page shows the
      service's fallback, which no rule rewrites. */
  lemma EmptySignupErrorShowsFallback(body: Api.ErrorBody)
    requires body.error == ""
    ensures ShownError(Api.ErrorFromBody(Api.SignupUser, body)) == "Failed to sign up"
  {
    var t := Api.ErrorFromBody(Api.SignupUser, body);
    assert t == ErrorObject(Api.Fallback(Api.SignupUser));
    SignupFallbackHasNoKeyword();
  }

  class RegisterForm {
    var error: string
    var loading: bool
    /** The ref flag that guards against a second submit before the
        `loading` state is visible. */
    var submitting: bool

    constructor ()
      ensures error == "" && !loading && !submitting
    {
      error := "";
      loading := false;
      submitting := false;
    }

    /** The synchronous part of `handleRegister`: a submit while either flag
        is set does nothing. */
    method StartRegister() returns (started: bool)
      modifies this
      ensures started <==> !old(loading) && !old(submitting)
      ensures !started ==> unchanged(this)
      ensures started ==> submitting && loading && error == ""
    {
      if loading || submitting {
        return false;
      }
      submitting := true;
      error := "";
      loading := true;
      started := true;
    }

    /** The part of `handleRegister` after `signupUser` settles: success goes
        to the dashboard; either way both flags are cleared. */
    method FinishRegister(failure: Option<Thrown>) returns (toDashboard: bool)
      modifies this
      ensures toDashboard <==> failure.None?
      ensures !loading && !submitting
      ensures failure.None? ==> error == old(error)
      ensures failure.Some? ==> error == ShownError(failure.value)
    {
      toDashboard := failure.None?;
      if failure.Some? {
        error := ShownError(failure.value);
      }
      loading := false;
      submitting := false;
    }
  }
}
