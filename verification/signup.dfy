/** The sign-up form's submit handler (`SignupPage`): client-side validation in
    a fixed order, then one call to `signUp`. */
module SignupPage {
  import opened Common

  const MinUsername: nat := 3
  const MinPassword: nat := 6
  const UsernameTooShort := "Username must be at least 3 characters"
  const PasswordTooShort := "Password must be at least 6 characters"
  const SignupFailed := "Failed to create account"

  datatype SignupForm = SignupForm(email: string, password: string, username: string, error: string, loading: bool)

  /** The arguments `signUp` was called with. */
  datatype SignUpCall = SignUpCall(email: string, password: string, username: string)

  /** The form after a submit, the call made (if any), and whether the page
      navigated to '/'. */
  datatype SubmitResult = SubmitResult(form: SignupForm, call: Option<SignUpCall>, navigated: bool)

  /** The first validation message that applies, if any; the username is checked
      before the password. */
  function Validate(f: SignupForm): (m: Option<string>)
    ensures m.None? <==> |f.username| >= MinUsername && |f.password| >= MinPassword
    ensures |f.username| < MinUsername ==> m == Some(UsernameTooShort)
    ensures |f.username| >= MinUsername && |f.password| < MinPassword ==> m == Some(PasswordTooShort)
  {
    if |f.username| < MinUsername then Some(UsernameTooShort)
    else if |f.password| < MinPassword then Some(PasswordTooShort)
    else None
  }

  /** `handleSubmit` once `signUp` has answered with `reply`: the old error is
      cleared first; invalid input shows its message without a call; valid input
      calls `signUp` and navigates on success or shows the error's message (or a
      generic one) on failure; `loading` is false at the end either way. */
  function HandleSubmit(f: SignupForm, reply: Reply<()>): (r: SubmitResult)
    ensures r.call.Some? <==> Validate(f).None?
    ensures r.call.Some? ==> r.call.value == SignUpCall(f.email, f.password, f.username)
    ensures Validate(f).Some? ==> r.form == f.(error := Validate(f).value) && !r.navigated
    ensures Validate(f).None? ==>
      && !r.form.loading
      && (r.navigated <==> reply.Data?)
      && (reply.Data? ==> r.form.error == [])
      && (reply.Error? ==>
            r.form.error == if reply.message.Some? && reply.message.value != [] then reply.message.value
                            else SignupFailed)
    ensures r.form.(error := f.error, loading := f.loading) == f
  {
    var cleared := f.(error := []);
    match Validate(cleared)
    case Some(msg) => SubmitResult(cleared.(error := msg), None, false)
    case None =>
      var calling := cleared.(loading := true);
      var call := SignUpCall(f.email, f.password, f.username);
      match reply
      case Data(_) => SubmitResult(calling.(loading := false), Some(call), true)
      case Error(m) =>
        var shown := if m.Some? && m.value != [] then m.value else SignupFailed;
        SubmitResult(calling.(error := shown, loading := false), Some(call), false)
  }

  /** A form that fails both checks reports the username, never the password. */
  lemma UsernameCheckedFirst(f: SignupForm, reply: Reply<()>)
    requires |f.username| < MinUsername && |f.password| < MinPassword
    ensures HandleSubmit(f, reply).form.error == UsernameTooShort
    ensures HandleSubmit(f, reply).call.None?
  {
  }

  /** Whatever happened, a submit never leaves an earlier error on the form
      unless it produced that same text again. */
  lemma ErrorIsFresh(f: SignupForm, reply: Reply<()>)
    ensures var e := HandleSubmit(f, reply).form.error;
            e == [] || e in {UsernameTooShort, PasswordTooShort, SignupFailed}
            || (reply.Error? && reply.message == Some(e))
  {
  }
}
