/** The quoted message above the composer and inside a reply bubble
    (`ReplyPreview`): who wrote it and its text, cut to 80 characters. */
module ReplyPreview {
  import opened Common
  import Text
  import Timeline

  const PreviewLength: nat := 80
  const Ellipsis := "..."
  const UnknownSender := "Unknown"

  /** What the preview shows. */
  datatype Preview = Preview(senderName: string, text: string)

  /** The content as shown: unchanged up to 80 characters, otherwise its first 80
      characters followed by '...'. */
  function Truncate(content: string): (r: string)
    ensures |content| <= PreviewLength ==> r == content
    ensures |content| > PreviewLength ==>
      |r| == PreviewLength + |Ellipsis| && r[..PreviewLength] == content[..PreviewLength]
      && r[PreviewLength..] == Ellipsis
  {
    if |content| > PreviewLength then content[..PreviewLength] + Ellipsis else content
  }

  /** A preview is never longer than 83 characters, and showing a preview of a
      preview shows the same thing. */
  lemma TruncateIsStable(content: string)
    ensures |Truncate(content)| <= PreviewLength + |Ellipsis|
    ensures Truncate(Truncate(content)) == Truncate(content)
  {
    if |content| > PreviewLength {
      var r := Truncate(content);
      assert r[..PreviewLength] + Ellipsis == r;
    }
  }

  /** `senderName`: the sender's username when it is present and non-empty. */
  function SenderName(m: Timeline.Message): (name: string)
    ensures name == UnknownSender <==> m.sender.None? || m.sender.value.username in {[], UnknownSender}
    ensures name != UnknownSender ==> name == m.sender.value.username
  {
    if m.sender.Some? && m.sender.value.username != [] then m.sender.value.username else UnknownSender
  }

  /** The preview of a message, or nothing without one. */
  function Render(message: Option<Timeline.Message>): (p: Option<Preview>)
    ensures p.None? <==> message.None?
    ensures p.Some? ==> p.value.senderName == SenderName(message.value)
                        && p.value.text == Truncate(message.value.content)
  {
    match message
    case None => None
    case Some(m) => Some(Preview(SenderName(m), Truncate(m.content)))
  }
}
