/** The avatar component of components/ProfileImage.js: a picture, or the user's initials. */
module ProfileImage {
  import opened Text
  import opened UserProfile

  datatype View = Picture(uri: string) | InitialsView(text: string)

  /** `!name ? '' : name.charAt(0).toUpperCase()`. */
  function Initial(name: string): (r: string)
    ensures |r| <= 1
    ensures name == "" <==> r == ""
    ensures r != "" ==> r[0] == UpperChar(name[0])
  {
    if name == "" then "" else [UpperChar(name[0])]
  }

  /** The initials text: the first name's initial, then the last name's. */
  function Initials(firstName: string, lastName: string): (r: string)
    ensures |r| == (if firstName == "" then 0 else 1) + (if lastName == "" then 0 else 1)
    ensures forall i :: 0 <= i < |r| ==> !IsAsciiLower(r[i])
    ensures r == "" <==> firstName == "" && lastName == ""
    ensures firstName != "" ==> r[0] == UpperChar(firstName[0])
    ensures lastName != "" ==> r[|r| - 1] == UpperChar(lastName[0])
  {
    Initial(firstName) + Initial(lastName)
  }

  /** The rendered view: a truthy `avatarImage` is shown as a picture, otherwise the initials are. */
  function Render(avatarImage: Avatar, firstName: string, lastName: string): (v: View)
    ensures v.Picture? <==> HasPicture(avatarImage)
    ensures v.Picture? ==> v.uri == avatarImage.uri
    ensures v.InitialsView? ==> v.text == Initials(firstName, lastName)
  {
    if HasPicture(avatarImage) then Picture(avatarImage.uri) else InitialsView(Initials(firstName, lastName))
  }

  /** Initials of names made of ASCII letters are ASCII capitals. */
  lemma InitialsOfLetters(firstName: string, lastName: string)
    requires AllLetters(firstName) && AllLetters(lastName)
    ensures forall i :: 0 <= i < |Initials(firstName, lastName)| ==> IsAsciiUpper(Initials(firstName, lastName)[i])
  {
  }

  /** A removed or default avatar falls back to the initials. */
  lemma NoPictureWithoutUri(firstName: string, lastName: string)
    ensures Render(NullAvatar, firstName, lastName) == InitialsView(Initials(firstName, lastName))
    ensures Render(InitialProfile.avatarImage, firstName, lastName) == InitialsView(Initials(firstName, lastName))
  {
  }
}
