/** The profile editing form: name and bio fields, the email shown but never
    sent, and a Save button that updates the viewer's `profiles` row. */
module EditProfileComponent {
  import opened Common
  import opened JsText

  /** The update sent to `profiles`: the row it targets (`profile?.id`, so
      nothing when the form has no profile) and the two columns it sets. The
      email is not a column of the update. */
  datatype ProfileUpdate = ProfileUpdate(targetId: Option<UserId>, name: string, bio: Option<string>)

  /** The form state `handleSubmit` works on. */
  datatype EditFormState = EditFormState(name: string, bio: string, loading: bool, error: string, success: bool)

  const UnexpectedError := "An unexpected error occurred"

  /** The form as first rendered: the profile's name and bio, empty when the
      profile or its bio is missing; no message and nothing in flight. */
  function InitialForm(profile: Option<Profile>): (r: EditFormState)
    ensures r.name == (if profile.Some? then profile.value.name else "")
    ensures r.bio == (if profile.Some? && profile.value.bio.Some? then profile.value.bio.value else "")
    ensures !r.loading && r.error == "" && !r.success
  {
    var name := OrElse(if profile.Some? then Some(profile.value.name) else None, "");
    var bio := OrElse(if profile.Some? then profile.value.bio else None, "");
    EditFormState(name, bio, false, "", false)
  }

  /** The update a save sends: both fields trimmed, and a bio that trims to
      nothing sent as `null` rather than as an empty string. */
  function ProfileUpdateFor(profile: Option<Profile>, name: string, bio: string): (r: ProfileUpdate)
    ensures r.targetId == (if profile.Some? then Some(profile.value.id) else None)
    ensures r.name == Trim(name)
    ensures r.bio.None? <==> AllWhitespace(bio)
    ensures r.bio.Some? ==> r.bio.value == Trim(bio) && r.bio.value != ""
  {
    var trimmedBio := Trim(bio);
    ProfileUpdate(
      if profile.Some? then Some(profile.value.id) else None,
      Trim(name),
      if trimmedBio == "" then None else Some(trimmedBio))
  }

  /** Save is enabled when nothing is in flight and the name is not blank. */
  function SaveEnabled(s: EditFormState): (r: bool)
    ensures r <==> !s.loading && !AllWhitespace(s.name)
  {
    !s.loading && Trim(s.name) != ""
  }

  /** A save sent through the enabled button never blanks the name. */
  lemma SavedNameNotBlank(profile: Option<Profile>, s: EditFormState)
    requires SaveEnabled(s)
    ensures var u := ProfileUpdateFor(profile, s.name, s.bio);
      && u.name != "" && !IsWhitespace(u.name[0]) && !IsWhitespace(u.name[|u.name| - 1])
  {
    var t := Trim(s.name);
    assert t != [];
    assert ProfileUpdateFor(profile, s.name, s.bio).name == t;
  }

  /** The state while the update is awaited: loading, old messages cleared. */
  function SubmitStarted(s: EditFormState): (r: EditFormState)
    ensures r.loading && r.error == "" && !r.success
    ensures r.name == s.name && r.bio == s.bio
  {
    s.(loading := true, error := "", success := false)
  }

  /** The state once the update has settled: the store's own message on an
      error, the generic one on an exception, success otherwise; `loading` is
      cleared whatever happened. */
  function SubmitSettled(s: EditFormState, outcome: StoreOutcome): (r: EditFormState)
    ensures !r.loading && r.name == s.name && r.bio == s.bio
    ensures outcome.Ok? ==> r.success && r.error == s.error
    ensures outcome.Err? ==> r.error == outcome.message && r.success == s.success
    ensures outcome.Throw? ==> r.error == UnexpectedError && r.success == s.success
  {
    match outcome
    case Ok => s.(loading := false, success := true)
    case Err(message) => s.(loading := false, error := message)
    case Throw => s.(loading := false, error := UnexpectedError)
  }

  /** A whole save: success with no message, or a message with no success,
      and never still loading. */
  lemma SaveOutcomeFlags(s: EditFormState, outcome: StoreOutcome)
    ensures var r := SubmitSettled(SubmitStarted(s), outcome);
      && !r.loading
      && (r.success <==> outcome.Ok?)
      && (outcome.Ok? ==> r.error == "")
      && (outcome.Err? ==> r.error == outcome.message)
      && (outcome.Throw? ==> r.error == UnexpectedError)
  {
  }

  class EditProfileForm {
    const profile: Option<Profile>
    var name: string
    var bio: string
    var loading: bool
    var error: string
    var success: bool

    function State(): EditFormState
      reads this
    {
      EditFormState(name, bio, loading, error, success)
    }

    constructor (profile: Option<Profile>)
      ensures this.profile == profile && State() == InitialForm(profile)
    {
      this.profile := profile;
      name := if profile.Some? then profile.value.name else "";
      bio := if profile.Some? && profile.value.bio.Some? then profile.value.bio.value else "";
      loading := false;
      error := "";
      success := false;
    }

    /** Typing into the name field, which is disabled while saving. */
    method EditName(text: string)
      requires !loading
      modifies this
      ensures State() == old(State()).(name := text)
    {
      name := text;
    }

    /** Typing into the bio field, which is disabled while saving. */
    method EditBio(text: string)
      requires !loading
      modifies this
      ensures State() == old(State()).(bio := text)
    {
      bio := text;
    }

    /** The save, up to the awaited update. */
    method BeginSubmit() returns (update: ProfileUpdate)
      modifies this
      ensures update == ProfileUpdateFor(profile, old(name), old(bio))
      ensures State() == SubmitStarted(old(State()))
    {
      var n, b := name, bio;
      update := ProfileUpdateFor(profile, n, b);
      loading := true;
      error := "";
      success := false;
    }

    /** The rest of the save, once the update has settled. */
    method CompleteSubmit(outcome: StoreOutcome)
      requires loading
      modifies this
      ensures State() == SubmitSettled(old(State()), outcome)
    {
      match outcome {
        case Ok => success := true;
        case Err(message) => error := message;
        case Throw => error := UnexpectedError;
      }
      loading := false;
    }

    /** A whole save whose update settles with `outcome`. It is reached only
        through the Save button, so only when that is enabled. */
    method HandleSubmit(outcome: StoreOutcome) returns (update: ProfileUpdate)
      requires SaveEnabled(State())
      modifies this
      ensures update == ProfileUpdateFor(profile, old(name), old(bio))
      ensures State() == SubmitSettled(SubmitStarted(old(State())), outcome)
    {
      update := BeginSubmit();
      CompleteSubmit(outcome);
    }
  }

  /** Saving the name "Ada" with an empty bio sends a `null` bio; a rejected
      save shows the store's message, a second one succeeds and clears it. */
  method SaveAda(p: Profile, m: string)
  {
    var form := new EditProfileForm(Some(p));
    form.EditName("Ada");
    form.EditBio("");
    assert Trim("Ada") == "Ada" by {
      TrimUnique("Ada", "Ada", 0);
    }
    var first := form.HandleSubmit(Err(m));
    assert first == ProfileUpdate(Some(p.id), "Ada", None);
    assert form.error == m && !form.success && !form.loading;
    var second := form.HandleSubmit(Ok);
    assert second == first;
    assert form.error == "" && form.success && !form.loading;
  }
}
