/** The "Share an update" form: a text area, the viewer's avatar and a Post
    button that inserts the trimmed text as a new post of the viewer. */
module CreatePostComponent {
  import opened Common
  import opened JsText
  import opened Initials

  /** The row inserted into `posts`; `id`, `created_at` and `likes_count`
      are filled in by the store. */
  datatype NewPost = NewPost(content: string, authorId: UserId)

  /** The form state `handleSubmit` works on. */
  datatype ComposerState = ComposerState(content: string, loading: bool)

  /** The row a submission inserts, or nothing when the text is blank or no
      one is signed in. */
  function PostInsertFor(content: string, user: Option<UserId>): (r: Option<NewPost>)
    ensures r.None? <==> AllWhitespace(content) || user.None?
    ensures r.Some? ==> r.value == NewPost(Trim(content), user.value)
    ensures r.Some? ==>
      && r.value.content != ""
      && !IsWhitespace(r.value.content[0])
      && !IsWhitespace(r.value.content[|r.value.content| - 1])
  {
    var trimmed := Trim(content);
    if trimmed == "" || user.None? then None else Some(NewPost(trimmed, user.value))
  }

  /** The Post button is enabled when the text is not blank and nothing is
      being posted. */
  function PostEnabled(s: ComposerState): (r: bool)
    ensures r <==> !AllWhitespace(s.content) && !s.loading
  {
    Trim(s.content) != "" && !s.loading
  }

  /** With the button enabled and a viewer signed in, a click always reaches
      the store; a blank text never does. */
  lemma EnabledClickInserts(s: ComposerState, user: Option<UserId>)
    ensures PostEnabled(s) && user.Some? ==> PostInsertFor(s.content, user).Some?
    ensures AllWhitespace(s.content) ==> PostInsertFor(s.content, user).None?
  {
  }

  /** The text the store receives has its surrounding whitespace removed and
      nothing else: it sits in the typed text with only whitespace around it,
      and submitting it again would send it unchanged. */
  lemma InsertedContentIsTypedText(content: string, u: UserId)
    requires !AllWhitespace(content)
    ensures var c := PostInsertFor(content, Some(u)).value.content;
      && (exists i :: TrimmedAt(content, c, i))
      && PostInsertFor(c, Some(u)) == PostInsertFor(content, Some(u))
  {
    TrimIdempotent(content);
  }

  /** The state once the insert has settled: the text is cleared only on
      success, so a failed post keeps what was typed; `loading` is cleared
      whatever happened. */
  function SubmitSettled(s: ComposerState, outcome: StoreOutcome): (r: ComposerState)
    ensures !r.loading
    ensures outcome.Ok? ==> r.content == ""
    ensures !outcome.Ok? ==> r.content == s.content
  {
    if outcome.Ok? then ComposerState("", false) else s.(loading := false)
  }

  /** The avatar beside the text area: initials of the viewer's profile name,
      `'U'` when there is none. */
  function ComposerAvatar(profile: Option<Profile>): (r: string)
    ensures |r| <= 2
    ensures (profile.None? || profile.value.name == "") ==> r == "U"
    ensures profile.Some? && profile.value.name != "" ==>
      r == Prefix(ToUpper(WordStarts(profile.value.name)), 2)
  {
    AvatarText(if profile.Some? then Some(profile.value.name) else None)
  }

  class CreatePost {
    var content: string
    var loading: bool
    var user: Option<UserId>
    var profile: Option<Profile>

    function State(): ComposerState
      reads this
    {
      ComposerState(content, loading)
    }

    constructor ()
      ensures State() == ComposerState("", false) && user == None && profile == None
    {
      content := "";
      loading := false;
      user := None;
      profile := None;
    }

    /** The session lookup at mount has come back; with a signed-in user, so
        has the lookup of that user's profile row (which may be missing). */
    method SessionRead(sessionUser: Option<UserId>, profileRow: Option<Profile>)
      modifies this
      ensures sessionUser.Some? ==> user == sessionUser && profile == profileRow
      ensures sessionUser.None? ==> user == old(user) && profile == old(profile)
      ensures State() == old(State())
    {
      if sessionUser.Some? {
        user := sessionUser;
        profile := profileRow;
      }
    }

    /** Typing into the text area, which is disabled while posting. */
    method Type(text: string)
      requires !loading
      modifies this
      ensures State() == ComposerState(text, false) && user == old(user) && profile == old(profile)
    {
      content := text;
    }

    /** The submit, up to the awaited insert. */
    method BeginSubmit() returns (insert: Option<NewPost>)
      modifies this
      ensures insert == PostInsertFor(old(content), user)
      ensures State() == if insert.Some? then old(State()).(loading := true) else old(State())
      ensures user == old(user) && profile == old(profile)
    {
      if Trim(content) == "" || user.None? {
        return None;
      }
      loading := true;
      insert := Some(NewPost(Trim(content), user.value));
    }

    /** The rest of the submit, once the insert has settled. */
    method CompleteSubmit(outcome: StoreOutcome)
      requires loading
      modifies this
      ensures State() == SubmitSettled(old(State()), outcome)
      ensures user == old(user) && profile == old(profile)
    {
      if outcome.Ok? {
        content := "";
      }
      loading := false;
    }

    /** A whole submit whose insert settles with `outcome`. */
    method HandleSubmit(outcome: StoreOutcome) returns (insert: Option<NewPost>)
      modifies this
      ensures insert == PostInsertFor(old(content), user)
      ensures State() == if insert.Some? then SubmitSettled(old(State()), outcome) else old(State())
      ensures user == old(user) && profile == old(profile)
    {
      insert := BeginSubmit();
      if insert.Some? {
        CompleteSubmit(outcome);
      }
    }
  }

  /** Posting "  hello  " sends "hello"; a failed post keeps the typed text,
      a second, successful one clears it. */
  method PostHelloTwice(u: UserId, p: Option<Profile>, m: string)
  {
    var form := new CreatePost();
    form.SessionRead(Some(u), p);
    form.Type("  hello  ");
    assert Trim("  hello  ") == "hello" by {
      TrimUnique("  hello  ", "hello", 2);
    }
    var first := form.HandleSubmit(Err(m));
    assert first == Some(NewPost("hello", u));
    assert form.content == "  hello  " && !form.loading;
    var second := form.HandleSubmit(Ok);
    assert second == Some(NewPost("hello", u));
    assert form.content == "" && !form.loading;
  }
}
