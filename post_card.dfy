/** One post in a feed: the author line, the content and the like button,
    whose handler adds or removes the viewer's `post_likes` row and moves a
    locally held counter only when the store reports success. */
module PostCardComponent {
  import opened Common
  import opened JsText
  import opened Initials

  /** The mutation `handleLike` sends to `post_likes`. */
  datatype LikeRequest =
    | DeleteLike(postId: PostId, userId: UserId)
    | InsertLike(postId: PostId, userId: UserId)

  /** The three pieces of component state the like button works on. */
  datatype LikeState = LikeState(isLiked: bool, likesCount: int, isLoadingLike: bool)

  function Max(a: int, b: int): int {
    if a < b then b else a
  }

  /** The guard and the choice of mutation: nothing without a signed-in user
      or while a toggle is in flight; otherwise delete the like row of a liked
      post, insert one for an unliked post. */
  function LikeRequestFor(s: LikeState, postId: PostId, user: Option<UserId>): (r: Option<LikeRequest>)
    ensures r.None? <==> user.None? || s.isLoadingLike
    ensures r.Some? ==> r.value.postId == postId && r.value.userId == user.value
    ensures r.Some? ==> (r.value.DeleteLike? <==> s.isLiked)
  {
    if user.None? || s.isLoadingLike then None
    else if s.isLiked then Some(DeleteLike(postId, user.value))
    else Some(InsertLike(postId, user.value))
  }

  /** The state while the mutation is awaited. */
  function Pending(s: LikeState): (r: LikeState)
    ensures r.isLoadingLike && r.isLiked == s.isLiked && r.likesCount == s.likesCount
  {
    s.(isLoadingLike := true)
  }

  /** The state once the mutation has settled: only success moves the flag and
      the counter, a removed like never takes the counter below zero, and the
      in-flight flag is cleared whatever happened. */
  function Settled(s: LikeState, req: LikeRequest, outcome: StoreOutcome): (r: LikeState)
    ensures !r.isLoadingLike
    ensures outcome.Ok? ==> r.isLiked == req.InsertLike?
    ensures outcome.Ok? && req.InsertLike? ==> r.likesCount == s.likesCount + 1
    ensures outcome.Ok? && req.DeleteLike? ==> r.likesCount == Max(0, s.likesCount - 1)
    ensures !outcome.Ok? ==> r.isLiked == s.isLiked && r.likesCount == s.likesCount
  {
    match outcome
    case Ok =>
      if req.DeleteLike? then LikeState(false, Max(0, s.likesCount - 1), false)
      else LikeState(true, s.likesCount + 1, false)
    case _ => s.(isLoadingLike := false)
  }

  /** One whole click on the like button, from the guard to the `finally`. */
  function Toggled(s: LikeState, postId: PostId, user: Option<UserId>, outcome: StoreOutcome): (r: LikeState)
    ensures user.None? || s.isLoadingLike ==> r == s
    ensures user.Some? && !s.isLoadingLike ==> !r.isLoadingLike
    ensures user.Some? && !s.isLoadingLike && outcome.Ok? ==>
      r.isLiked == !s.isLiked &&
      r.likesCount == (if s.isLiked then Max(0, s.likesCount - 1) else s.likesCount + 1)
    ensures !outcome.Ok? ==> r.isLiked == s.isLiked && r.likesCount == s.likesCount
  {
    match LikeRequestFor(s, postId, user)
    case None => s
    case Some(req) => Settled(Pending(s), req, outcome)
  }

  /** Successive clicks, each completing before the next. */
  function AfterClicks(s: LikeState, postId: PostId, user: Option<UserId>, outcomes: seq<StoreOutcome>): LikeState
    decreases |outcomes|
  {
    if outcomes == [] then s
    else AfterClicks(Toggled(s, postId, user, outcomes[0]), postId, user, outcomes[1..])
  }

  /** Liking and then unliking, both successfully, restores the state exactly
      when the counter did not start below zero. */
  lemma LikeThenUnlike(s: LikeState, postId: PostId, u: UserId)
    requires !s.isLiked && !s.isLoadingLike
    ensures Toggled(Toggled(s, postId, Some(u), Ok), postId, Some(u), Ok) == s <==> s.likesCount >= 0
  {
  }

  /** Unliking and then liking, both successfully, restores the state exactly
      when the counter started at one or more: from zero the decrement is
      clamped and the increment overshoots. */
  lemma UnlikeThenLike(s: LikeState, postId: PostId, u: UserId)
    requires s.isLiked && !s.isLoadingLike
    ensures Toggled(Toggled(s, postId, Some(u), Ok), postId, Some(u), Ok) == s <==> s.likesCount >= 1
  {
  }

  /** A counter that starts non-negative stays non-negative, whatever the
      sequence of clicks and store outcomes. */
  lemma {:induction false} CountNeverNegative(s: LikeState, postId: PostId, user: Option<UserId>, outcomes: seq<StoreOutcome>)
    requires s.likesCount >= 0
    ensures AfterClicks(s, postId, user, outcomes).likesCount >= 0
    decreases |outcomes|
  {
    if outcomes != [] {
      CountNeverNegative(Toggled(s, postId, user, outcomes[0]), postId, user, outcomes[1..]);
    }
  }

  function LikedAsInt(b: bool): int {
    if b then 1 else 0
  }

  /** When the counter already includes the viewer's own like (it is at least
      one when the post is liked), the clamp never fires, and the likes of
      everyone else, `likesCount` minus the viewer's own, are never changed by
      the viewer's clicks. */
  lemma {:induction false} OthersLikesKept(s: LikeState, postId: PostId, user: Option<UserId>, outcomes: seq<StoreOutcome>)
    requires !s.isLoadingLike
    requires s.likesCount >= LikedAsInt(s.isLiked)
    ensures var r := AfterClicks(s, postId, user, outcomes);
      && r.likesCount >= LikedAsInt(r.isLiked)
      && r.likesCount - LikedAsInt(r.isLiked) == s.likesCount - LikedAsInt(s.isLiked)
    decreases |outcomes|
  {
    if outcomes != [] {
      OthersLikesKept(Toggled(s, postId, user, outcomes[0]), postId, user, outcomes[1..]);
    }
  }

  /** The text beside the heart: the count when positive, else the word. */
  function LikeLabel(likesCount: int): (r: string)
    ensures r == "Like" <==> likesCount <= 0
    ensures likesCount > 0 ==>
      && (forall i :: 0 <= i < |r| ==> IsDigit(r[i]))
      && (|r| > 1 ==> r[0] != '0')
      && DecimalValue(r) == likesCount
  {
    if likesCount > 0 then
      DecimalRoundTrip(likesCount);
      DecimalString(likesCount)
    else
      "Like"
  }

  /** The author's name as the card receives it: `post.profiles?.name`. */
  function AuthorName(post: Post): Option<string> {
    if post.profiles.Some? then Some(post.profiles.value.name) else None
  }

  /** The avatar: initials of the author's name, `'U'` when there is none. */
  function CardAvatar(post: Post): (r: string)
    ensures |r| <= 2
    ensures !Truthy(AuthorName(post)) ==> r == "U"
    ensures Truthy(AuthorName(post)) ==> r == Prefix(ToUpper(WordStarts(post.profiles.value.name)), 2)
  {
    AvatarText(AuthorName(post))
  }

  /** The author link: the name, `'Unknown User'` when it is missing or empty;
      it always leads to the author's profile page. */
  function AuthorLink(post: Post): (r: (string, string))
    ensures r.0 == "/profile/" + post.authorId
    ensures r.1 == "Unknown User" <==> !Truthy(AuthorName(post)) || post.profiles.value.name == "Unknown User"
    ensures Truthy(AuthorName(post)) ==> r.1 == post.profiles.value.name
  {
    ("/profile/" + post.authorId, OrElse(AuthorName(post), "Unknown User"))
  }

  /** The author's bio line, shown only when the bio is present and not empty. */
  function CardBio(post: Post): (r: Option<string>)
    ensures r.Some? <==> post.profiles.Some? && Truthy(post.profiles.value.bio)
    ensures r.Some? ==> r.value == post.profiles.value.bio.value
  {
    if post.profiles.Some? && Truthy(post.profiles.value.bio) then post.profiles.value.bio else None
  }

  /** The card's state, one instance per rendered post. */
  class PostCard {
    const post: Post
    var isLiked: bool
    var likesCount: int
    var isLoadingLike: bool
    var user: Option<UserId>

    function State(): LikeState
      reads this
    {
      LikeState(isLiked, likesCount, isLoadingLike)
    }

    /** The initial state: the liked flag from the feed, the counter from the
        row, nothing in flight and no user until the session is read. */
    constructor (post: Post, initialIsLiked: bool)
      ensures this.post == post && user == None
      ensures State() == LikeState(initialIsLiked, post.likesCount, false)
    {
      this.post := post;
      isLiked := initialIsLiked;
      likesCount := post.likesCount;
      isLoadingLike := false;
      user := None;
    }

    /** The session lookup of the mount effect has come back. */
    method SessionRead(sessionUser: Option<UserId>)
      modifies this
      ensures user == sessionUser && State() == old(State())
    {
      user := sessionUser;
    }

    /** The click, up to the awaited mutation. */
    method BeginLike() returns (req: Option<LikeRequest>)
      modifies this
      ensures req == LikeRequestFor(old(State()), post.id, user)
      ensures State() == if req.Some? then Pending(old(State())) else old(State())
      ensures user == old(user)
    {
      if user.None? || isLoadingLike {
        return None;
      }
      isLoadingLike := true;
      if isLiked {
        req := Some(DeleteLike(post.id, user.value));
      } else {
        req := Some(InsertLike(post.id, user.value));
      }
    }

    /** The rest of the click, once the mutation `req` has settled. */
    method CompleteLike(req: LikeRequest, outcome: StoreOutcome)
      requires isLoadingLike
      modifies this
      ensures State() == Settled(old(State()), req, outcome) && user == old(user)
    {
      match outcome {
        case Ok =>
          if req.DeleteLike? {
            isLiked := false;
            likesCount := Max(0, likesCount - 1);
          } else {
            isLiked := true;
            likesCount := likesCount + 1;
          }
        case _ =>
      }
      isLoadingLike := false;
    }

    /** A whole click whose mutation settles with `outcome`. */
    method HandleLike(outcome: StoreOutcome) returns (req: Option<LikeRequest>)
      modifies this
      ensures req == LikeRequestFor(old(State()), post.id, user)
      ensures State() == Toggled(old(State()), post.id, user, outcome) && user == old(user)
    {
      req := BeginLike();
      if req.Some? {
        CompleteLike(req.value, outcome);
      }
    }
  }

  /** A like, then an unlike with a second click while the unlike is awaited:
      the second click is turned away without a store call, and the counter
      goes 0, 1, 0. */
  method LikeUnlikeWithDoubleClick(post: Post, u: UserId)
    requires post.likesCount == 0
  {
    var card := new PostCard(post, false);
    card.SessionRead(Some(u));
    var r1 := card.HandleLike(Ok);
    assert r1 == Some(InsertLike(post.id, u));
    assert card.isLiked && card.likesCount == 1;
    var r2 := card.BeginLike();
    assert r2 == Some(DeleteLike(post.id, u));
    var r3 := card.BeginLike();
    assert r3 == None && card.likesCount == 1;
    card.CompleteLike(r2.value, Ok);
    assert !card.isLiked && card.likesCount == 0 && !card.isLoadingLike;
  }
}
