/** The round picture shown for a user (`Avatar`): an image or two initials, a
    size class, and an optional presence dot. */
module Avatar {
  import opened Common
  import Text

  const NoName := "??"
  const DefaultSize := "md"

  /** `initials`: the first two characters of the name in upper case, or '??'
      when there is no name. */
  function Initials(name: Option<string>): (r: string)
    ensures name.None? || name.value == [] ==> r == NoName
    ensures name.Some? && name.value != [] ==>
      && |r| == (if |name.value| < 2 then |name.value| else 2)
      && forall i :: 0 <= i < |r| ==> r[i] == Text.UpperChar(name.value[i])
  {
    if name.None? || name.value == [] then NoName else Text.Upper(Text.Take(name.value, 2))
  }

  /** Initials are never empty and never longer than two characters. */
  lemma InitialsShape(name: Option<string>)
    ensures 1 <= |Initials(name)| <= 2
  {
  }

  /** `sizeClass`: the class for 'sm', 'md' and 'lg', and 'avatar-md' for any
      other size; a missing size is 'md'. */
  function SizeClass(size: Option<string>): (c: string)
    ensures size.Some? && size.value in {"sm", "md", "lg"} ==> c == "avatar-" + size.value
    ensures size.None? || size.value !in {"sm", "md", "lg"} ==> c == "avatar-md"
  {
    var s := size.GetOr(DefaultSize);
    if s == "sm" then "avatar-sm"
    else if s == "md" then "avatar-md"
    else if s == "lg" then "avatar-lg"
    else "avatar-md"
  }

  /** Every size lands on one of the three classes. */
  lemma SizeClassIsKnown(size: Option<string>)
    ensures SizeClass(size) in {"avatar-sm", "avatar-md", "avatar-lg"}
  {
  }

  datatype Face = Image(src: string) | Letters(initials: string)

  /** What the avatar draws. */
  datatype AvatarView = AvatarView(sizeClass: string, face: Face, statusDot: Option<string>)

  /** `Avatar(props)`: the image when `src` is present and non-empty, the initials
      otherwise, and a dot with the status' class only for a non-empty status. */
  function Render(src: Option<string>, name: Option<string>, size: Option<string>, status: Option<string>)
    : (v: AvatarView)
    ensures v.sizeClass == SizeClass(size)
    ensures v.face.Image? <==> src.Some? && src.value != []
    ensures v.face.Image? ==> v.face.src == src.value
    ensures v.face.Letters? ==> v.face.initials == Initials(name)
    ensures v.statusDot.Some? <==> status.Some? && status.value != []
    ensures v.statusDot.Some? ==> v.statusDot.value == "avatar-status-" + status.value
  {
    AvatarView(
      SizeClass(size),
      if src.Some? && src.value != [] then Image(src.value) else Letters(Initials(name)),
      if status.Some? && status.value != [] then Some("avatar-status-" + status.value) else None)
  }
}
