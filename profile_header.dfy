/** The card at the top of a profile page: avatar initials, name, email, the
    bio when there is one, and an Edit Profile link on the viewer's own page. */
module ProfileHeaderComponent {
  import opened Common
  import opened JsText
  import opened Initials

  datatype ProfileHeaderView = ProfileHeaderView(
    initials: string,
    name: string,
    email: string,
    bio: Option<string>,
    editProfileLink: bool)

  /** The card for `profile`. Unlike the other avatars, the initials have no
      fallback: a name without a word gives an empty avatar. */
  function ProfileHeaderFor(profile: Profile, isOwnProfile: bool): (r: ProfileHeaderView)
    ensures |r.initials| <= 2
    ensures r.initials == Prefix(ToUpper(WordStarts(profile.name)), 2)
    ensures r.initials == "" <==> AllSpaces(profile.name)
    ensures r.name == profile.name && r.email == profile.email
    ensures r.bio.Some? <==> Truthy(profile.bio)
    ensures r.bio.Some? ==> r.bio == profile.bio
    ensures r.editProfileLink <==> isOwnProfile
  {
    InitialsEmptyIff(profile.name);
    ProfileHeaderView(
      GetInitials(profile.name),
      profile.name,
      profile.email,
      if Truthy(profile.bio) then profile.bio else None,
      isOwnProfile)
  }
}
