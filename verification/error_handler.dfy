/** `handleSupabaseError`: turning an error from the backend into the text shown
    to the user, by an ordered series of substring and code tests. The redirect
    to the login page is returned as a flag. */
module ErrorHandler {
  import opened Common
  import Text

  /** The fields of an error the handler reads. */
  datatype BackendError = BackendError(message: Option<string>, code: Option<string>)

  datatype Category = SessionExpired | RateLimited | NetworkFailure | PermissionDenied | Unclassified

  /** What the handler returns, and whether it sent the browser to '/login'. */
  datatype Handled = Handled(message: string, redirectToLogin: bool)

  const SessionExpiredText := "Session expired. Please log in again."
  const RateLimitedText := "You're sending messages too fast. Please slow down."
  const NetworkText := "Network error. Check your connection."
  const PermissionText := "You do not have permission to perform this action."
  const GenericText := "Something went wrong. Please try again."

  /** The error's message contains `sub`; false when there is no message. */
  predicate Mentions(e: BackendError, sub: string) {
    e.message.Some? && Text.Contains(e.message.value, sub)
  }

  predicate HasCode(e: BackendError, code: string) {
    e.code == Some(code)
  }

  /** The tests in the order the handler makes them; the first that holds decides. */
  function Classify(e: BackendError): (c: Category)
    ensures c == SessionExpired <==> Mentions(e, "JWT") || HasCode(e, "PGRST301")
    ensures c == RateLimited <==>
      !(Mentions(e, "JWT") || HasCode(e, "PGRST301")) && (Mentions(e, "rate") || HasCode(e, "42501"))
    ensures c == NetworkFailure <==>
      && !(Mentions(e, "JWT") || HasCode(e, "PGRST301"))
      && !(Mentions(e, "rate") || HasCode(e, "42501"))
      && (Mentions(e, "network") || Mentions(e, "fetch"))
    ensures c == PermissionDenied <==>
      && !(Mentions(e, "JWT") || HasCode(e, "PGRST301"))
      && !(Mentions(e, "rate") || HasCode(e, "42501"))
      && !(Mentions(e, "network") || Mentions(e, "fetch"))
      && (HasCode(e, "42501") || Mentions(e, "permission"))
    ensures c == Unclassified <==>
      && !(Mentions(e, "JWT") || HasCode(e, "PGRST301"))
      && !(Mentions(e, "rate") || HasCode(e, "42501"))
      && !(Mentions(e, "network") || Mentions(e, "fetch"))
      && !Mentions(e, "permission")
  {
    if Mentions(e, "JWT") || HasCode(e, "PGRST301") then SessionExpired
    else if Mentions(e, "rate") || HasCode(e, "42501") then RateLimited
    else if Mentions(e, "network") || Mentions(e, "fetch") then NetworkFailure
    else if HasCode(e, "42501") || Mentions(e, "permission") then PermissionDenied
    else Unclassified
  }

  /** `handleSupabaseError(error)`. */
  function HandleError(e: BackendError): (r: Handled)
    ensures r.redirectToLogin <==> Classify(e) == SessionExpired
    ensures Classify(e) == SessionExpired ==> r.message == SessionExpiredText
    ensures Classify(e) == RateLimited ==> r.message == RateLimitedText
    ensures Classify(e) == NetworkFailure ==> r.message == NetworkText
    ensures Classify(e) == PermissionDenied ==> r.message == PermissionText
    ensures Classify(e) == Unclassified ==>
      r.message == if e.message.Some? && e.message.value != [] then e.message.value else GenericText
    ensures |r.message| > 0
  {
    match Classify(e)
    case SessionExpired => Handled(SessionExpiredText, true)
    case RateLimited => Handled(RateLimitedText, false)
    case NetworkFailure => Handled(NetworkText, false)
    case PermissionDenied => Handled(PermissionText, false)
    case Unclassified =>
      Handled(if e.message.Some? && e.message.value != [] then e.message.value else GenericText, false)
  }

  /** The code '42501' is caught by the rate-limit test, so the permission
      test's own check of that code can never decide: only the word
      'permission' leads to the permission message. */
  lemma CodeNeverReachesPermission(e: BackendError)
    requires HasCode(e, "42501")
    ensures Classify(e) != PermissionDenied
    ensures HandleError(e).message != PermissionText
  {
  }

  /** The session test comes first: a JWT complaint redirects whatever else the
      error says. */
  lemma SessionTakesPrecedence(e: BackendError)
    requires Mentions(e, "JWT")
    ensures HandleError(e) == Handled(SessionExpiredText, true)
  {
  }

  /** The rate test is a bare substring test, so an unrelated word that
      contains 'rate' is reported as rate limiting. */
  lemma SubstringRateExample()
    ensures HandleError(BackendError(Some("separate"), None)).message == RateLimitedText
  {
    assert Text.OccursAt("separate", "rate", 4);
    assert !Text.Contains("separate", "JWT") by {
      forall i | 0 <= i <= 5 ensures !Text.OccursAt("separate", "JWT", i) {
        assert "separate"[i] != 'J';
      }
    }
  }
}
