/** The two server-rendered post lists: the home feed (every post) and a
    profile's posts (one author's). Each turns the outcome of a posts query
    and of a liked-posts query into one of three renderings, and decides for
    every card whether it starts out liked. */
module Feed {
  import opened Common

  /** The queries a list sends to the store. */
  datatype Request =
    | SelectPosts(authorFilter: Option<UserId>, orderColumn: string, ascending: bool)
    | SelectLikedPostIds(viewer: Option<UserId>)

  /** The props of one rendered `PostCard`. */
  datatype Card = Card(post: Post, initialIsLiked: bool)

  datatype View =
    | ErrorPanel(message: string)
    | EmptyState(message: string)
    | Cards(cards: seq<Card>)

  datatype Rendered = Rendered(requests: seq<Request>, view: View)

  const FeedErrorMessage := "Error loading posts. Please check your database setup."
  const FeedEmptyMessage := "No posts yet"
  const UserPostsErrorMessage := "Error loading posts"
  const UserPostsEmptyMessage := "No posts yet."

  /** The newest-first order both lists ask the store for. */
  function PostsQuery(authorFilter: Option<UserId>): (r: Request)
    ensures r.SelectPosts? && r.authorFilter == authorFilter
    ensures r.orderColumn == "created_at" && !r.ascending
  {
    SelectPosts(authorFilter, "created_at", false)
  }

  /** `new Set(likedPostsData?.map(like => like.post_id))`: the ids of the
      returned rows, and the empty set when the query failed or returned no
      data. */
  function LikedPostIds(likes: Query<LikeRow>): (r: set<PostId>)
    ensures !(likes.Fetched? && likes.data.Some?) ==> r == {}
    ensures likes.Fetched? && likes.data.Some? ==>
      forall id :: id in r <==> exists k :: 0 <= k < |likes.data.value| && likes.data.value[k].postId == id
  {
    if likes.Fetched? && likes.data.Some? then
      set k | 0 <= k < |likes.data.value| :: likes.data.value[k].postId
    else {}
  }

  /** One card per post, in order; a card starts out liked when the viewer's
      id is truthy (present and not empty) and the post's id is in `liked`. */
  function CardsFor(posts: seq<Post>, viewer: Option<UserId>, liked: set<PostId>): (r: seq<Card>)
    ensures |r| == |posts|
    ensures forall k :: 0 <= k < |posts| ==> r[k].post == posts[k]
    ensures forall k :: 0 <= k < |posts| ==> (r[k].initialIsLiked <==> Truthy(viewer) && posts[k].id in liked)
  {
    seq(|posts|, k requires 0 <= k < |posts| =>
      Card(posts[k], if Truthy(viewer) then posts[k].id in liked else false))
  }

  predicate NoRows(data: Option<seq<Post>>) {
    data.None? || |data.value| == 0
  }

  /** The home feed. The liked-posts query is sent only once there are posts
      to decorate. */
  function PostFeed(viewer: Option<UserId>, posts: Query<Post>, likes: Query<LikeRow>): (r: Rendered)
    ensures r.view.ErrorPanel? <==> posts.Failed?
    ensures r.view.EmptyState? <==> posts.Fetched? && NoRows(posts.data)
    ensures r.view.ErrorPanel? ==> r.view.message == FeedErrorMessage
    ensures r.view.EmptyState? ==> r.view.message == FeedEmptyMessage
    ensures r.requests == if r.view.Cards? then [PostsQuery(None), SelectLikedPostIds(viewer)]
                          else [PostsQuery(None)]
    ensures r.view.Cards? ==> r.view.cards == CardsFor(posts.data.value, viewer, LikedPostIds(likes))
  {
    match posts
    case Failed(_) => Rendered([PostsQuery(None)], ErrorPanel(FeedErrorMessage))
    case Fetched(data) =>
      if NoRows(data) then Rendered([PostsQuery(None)], EmptyState(FeedEmptyMessage))
      else Rendered([PostsQuery(None), SelectLikedPostIds(viewer)],
                    Cards(CardsFor(data.value, viewer, LikedPostIds(likes))))
  }

  /** One author's posts on a profile page. The liked-posts query is sent
      before the posts outcome is looked at, so it is always sent. */
  function UserPosts(userId: UserId, viewer: Option<UserId>, posts: Query<Post>, likes: Query<LikeRow>): (r: Rendered)
    ensures r.requests == [PostsQuery(Some(userId)), SelectLikedPostIds(viewer)]
    ensures r.view.ErrorPanel? <==> posts.Failed?
    ensures r.view.EmptyState? <==> posts.Fetched? && NoRows(posts.data)
    ensures r.view.ErrorPanel? ==> r.view.message == UserPostsErrorMessage
    ensures r.view.EmptyState? ==> r.view.message == UserPostsEmptyMessage
    ensures r.view.Cards? ==> r.view.cards == CardsFor(posts.data.value, viewer, LikedPostIds(likes))
  {
    var requests := [PostsQuery(Some(userId)), SelectLikedPostIds(viewer)];
    var liked := LikedPostIds(likes);
    match posts
    case Failed(_) => Rendered(requests, ErrorPanel(UserPostsErrorMessage))
    case Fetched(data) =>
      if NoRows(data) then Rendered(requests, EmptyState(UserPostsEmptyMessage))
      else Rendered(requests, Cards(CardsFor(data.value, viewer, liked)))
  }

  // ---------------------------------------------------------------------
  // Properties of the rendered lists

  /** `created_at` never increases along the list. */
  predicate NewestFirst(posts: seq<Post>) {
    forall i, j :: 0 <= i < j < |posts| ==> posts[i].createdAt >= posts[j].createdAt
  }

  function CardPosts(cards: seq<Card>): (r: seq<Post>)
    ensures |r| == |cards|
  {
    seq(|cards|, k requires 0 <= k < |cards| => cards[k].post)
  }

  /** One card per fetched row, in the order the store returned them, so the
      newest-first order the query asks for is the order on screen. */
  lemma FeedKeepsOrder(viewer: Option<UserId>, posts: Query<Post>, likes: Query<LikeRow>)
    requires PostFeed(viewer, posts, likes).view.Cards?
    ensures var cards := PostFeed(viewer, posts, likes).view.cards;
      && CardPosts(cards) == posts.data.value
      && (NewestFirst(posts.data.value) ==> NewestFirst(CardPosts(cards)))
  {
    var cards := PostFeed(viewer, posts, likes).view.cards;
    assert CardPosts(cards) == posts.data.value;
  }

  /** The same for a profile's list; and when the store honours the author
      filter, every card is that author's. */
  lemma UserPostsKeepOrder(userId: UserId, viewer: Option<UserId>, posts: Query<Post>, likes: Query<LikeRow>)
    requires UserPosts(userId, viewer, posts, likes).view.Cards?
    ensures var cards := UserPosts(userId, viewer, posts, likes).view.cards;
      && CardPosts(cards) == posts.data.value
      && (NewestFirst(posts.data.value) ==> NewestFirst(CardPosts(cards)))
      && ((forall k :: 0 <= k < |posts.data.value| ==> posts.data.value[k].authorId == userId) ==>
          forall k :: 0 <= k < |cards| ==> cards[k].post.authorId == userId)
  {
    var cards := UserPosts(userId, viewer, posts, likes).view.cards;
    assert CardPosts(cards) == posts.data.value;
  }

  /** A card starts out liked exactly when there is a viewer and one of the
      viewer's like rows names the post. */
  lemma LikedIffLikeRow(viewer: Option<UserId>, posts: seq<Post>, rows: seq<LikeRow>, k: nat)
    requires k < |posts|
    ensures CardsFor(posts, viewer, LikedPostIds(Fetched(Some(rows))))[k].initialIsLiked <==>
      Truthy(viewer) && exists j :: 0 <= j < |rows| && rows[j].postId == posts[k].id
  {
  }

  /** A failed liked-posts query only costs the like marks: the feed still
      renders every post, none of them liked. */
  lemma LikeQueryFailureDegrades(userId: UserId, viewer: Option<UserId>, posts: Query<Post>, msg: string)
    requires posts.Fetched? && !NoRows(posts.data)
    ensures var v := PostFeed(viewer, posts, Failed(msg)).view;
      && v.Cards? && |v.cards| == |posts.data.value|
      && forall k :: 0 <= k < |v.cards| ==> !v.cards[k].initialIsLiked
    ensures var v := UserPosts(userId, viewer, posts, Failed(msg)).view;
      && v.Cards? && |v.cards| == |posts.data.value|
      && forall k :: 0 <= k < |v.cards| ==> !v.cards[k].initialIsLiked
  {
  }

  /** Without a viewer no card is liked, whatever the like query returned. */
  lemma NoViewerNothingLiked(posts: Query<Post>, likes: Query<LikeRow>)
    requires PostFeed(None, posts, likes).view.Cards?
    ensures forall k :: 0 <= k < |PostFeed(None, posts, likes).view.cards| ==>
      !PostFeed(None, posts, likes).view.cards[k].initialIsLiked
  {
  }

  /** A failed posts query on a profile gives the error text, whatever the
      liked-posts query did. */
  lemma UserPostsErrorIgnoresLikes(userId: UserId, viewer: Option<UserId>, msg: string, likes1: Query<LikeRow>, likes2: Query<LikeRow>)
    ensures UserPosts(userId, viewer, Failed(msg), likes1).view ==
            UserPosts(userId, viewer, Failed(msg), likes2).view == ErrorPanel(UserPostsErrorMessage)
  {
  }
}
