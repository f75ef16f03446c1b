/** The sticky page header: the site links, and for a signed-in user an
    account menu with an avatar, the user's name and email, and links to the
    user's profile, to profile editing and to signing out. */
module HeaderComponent {
  import opened Common
  import opened JsText
  import opened Initials

  datatype AccountMenu = AccountMenu(
    avatar: string,
    displayName: string,
    email: string,
    profileHref: string,
    editProfileHref: string)

  function ProfileName(profile: Option<Profile>): Option<string> {
    if profile.Some? then Some(profile.value.name) else None
  }

  /** The account menu, rendered only for a signed-in user; its avatar falls
      back to `'U'` and its name to `'User'` while the profile row is missing
      or has an empty name. */
  function AccountMenuFor(user: Option<SessionUser>, profile: Option<Profile>): (r: Option<AccountMenu>)
    ensures r.Some? <==> user.Some?
    ensures r.Some? ==>
      && r.value.profileHref == "/profile/" + user.value.id
      && r.value.editProfileHref == "/profile/edit"
      && r.value.email == user.value.email
      && |r.value.avatar| <= 2
    ensures r.Some? && !Truthy(ProfileName(profile)) ==>
      r.value.avatar == "U" && r.value.displayName == "User"
    ensures r.Some? && Truthy(ProfileName(profile)) ==>
      && r.value.displayName == profile.value.name
      && r.value.avatar == Prefix(ToUpper(WordStarts(profile.value.name)), 2)
  {
    if user.None? then None
    else
      Some(AccountMenu(
        AvatarText(ProfileName(profile)),
        OrElse(ProfileName(profile), "User"),
        user.value.email,
        "/profile/" + user.value.id,
        "/profile/edit"))
  }
}
