/** The message composer (`MessageInput`): the text field, the in-flight flag,
    and the `justSent` flag that asks for the field to be refocused. */
module MessageInput {
  import opened Common
  import Text

  datatype InputState = InputState(text: string, sending: bool, justSent: bool)

  function Initial(): InputState {
    InputState("", false, false)
  }

  /** Typing replaces the field's text; the field is disabled while a send is
      in flight, so nothing can be typed then. */
  function Edit(s: InputState, text: string): (r: InputState)
    ensures s.sending ==> r == s
    ensures !s.sending ==> r.text == text && r.sending == s.sending && r.justSent == s.justSent
  {
    if s.sending then s else s.(text := text)
  }

  /** A submit is refused for text that is all white space or while a send is
      in flight. */
  predicate Refused(s: InputState) {
    Text.IsBlank(s.text) || s.sending
  }

  /** The send button's `disabled` rule: the trimmed text is empty or a send is
      in flight. */
  predicate SendDisabled(s: InputState) {
    Text.Trim(s.text) == [] || s.sending
  }

  /** The button is disabled exactly when pressing it would be refused. */
  lemma DisabledIffRefused(s: InputState)
    ensures SendDisabled(s) <==> Refused(s)
    ensures SendDisabled(s) <==> BeginSubmit(s).1.None?
  {
  }

  /** The first half of `handleSubmit`: unless refused, mark the send as in
      flight and hand the text, untrimmed, to `onSend`. */
  function BeginSubmit(s: InputState): (r: (InputState, Option<string>))
    ensures Refused(s) ==> r == (s, None)
    ensures !Refused(s) ==> r.1 == Some(s.text) && r.0 == s.(sending := true)
  {
    if Text.Trim(s.text) == [] || s.sending then (s, None)
    else (s.(sending := true), Some(s.text))
  }

  /** The second half, once `onSend` has settled: success empties the field and
      sets `justSent`; failure keeps the text; either way the send is over. */
  function FinishSubmit(s: InputState, succeeded: bool): (r: InputState)
    ensures !r.sending
    ensures succeeded ==> r.text == [] && r.justSent
    ensures !succeeded ==> r.text == s.text && r.justSent == s.justSent
  {
    if succeeded then InputState("", false, true) else s.(sending := false)
  }

  /** A whole submit. The text handed on is the one in the field. */
  function Submit(s: InputState, succeeded: bool): (r: (InputState, Option<string>))
    ensures Refused(s) ==> r == (s, None)
    ensures !Refused(s) ==>
      && r.1 == Some(s.text)
      && !r.0.sending
      && (succeeded ==> r.0.text == [] && r.0.justSent)
      && (!succeeded ==> r.0 == s)
  {
    var (started, sent) := BeginSubmit(s);
    if sent.None? then (s, None) else (FinishSubmit(started, succeeded), sent)
  }

  /** What was typed last is exactly what a submit hands on, and typing during a
      send cannot change what that send delivered. */
  lemma SubmitSendsTypedText(s: InputState, text: string, later: string, succeeded: bool)
    requires !s.sending && !Text.IsBlank(text)
    ensures Submit(Edit(s, text), succeeded).1 == Some(text)
    ensures Edit(BeginSubmit(Edit(s, text)).0, later).text == text
  {
  }

  /** A failed send can be retried with the same text: nothing was lost. */
  lemma FailedSendCanRetry(s: InputState)
    requires !Refused(s)
    ensures Submit(Submit(s, false).0, true).1 == Some(s.text)
  {
  }

  /** After a successful send, a second submit is refused until more is typed. */
  lemma SentFieldRefusesResubmit(s: InputState)
    requires !Refused(s)
    ensures Refused(Submit(s, true).0)
  {
  }

  /** `handleKeyDown`: Enter without Shift submits; any other key, and Shift+Enter,
      leaves everything as it is. */
  function KeyDown(s: InputState, key: string, shift: bool, succeeded: bool): (r: (InputState, Option<string>))
    ensures key != "Enter" || shift ==> r == (s, None)
    ensures key == "Enter" && !shift ==> r == Submit(s, succeeded)
  {
    if key == "Enter" && !shift then Submit(s, succeeded) else (s, None)
  }

  /** The refocus effect: once a send has finished successfully the field takes
      the focus and the flag is cleared. The result says whether focus moved. */
  function Refocus(s: InputState): (r: (InputState, bool))
    ensures r.1 <==> s.justSent && !s.sending
    ensures r.1 ==> r.0 == s.(justSent := false)
    ensures !r.1 ==> r.0 == s
  {
    if s.justSent && !s.sending then (s.(justSent := false), true) else (s, false)
  }

  /** A successful send ends with focus back in an empty field and no flag left over. */
  lemma SuccessRefocusesEmptyField(s: InputState)
    requires !Refused(s)
    ensures var (after, focused) := Refocus(Submit(s, true).0);
            focused && after == Initial()
  {
  }
}
