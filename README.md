# Community feed: a Dafny model of the feed, post, like and profile components

The application is a small social feed over a hosted Postgres store. Signed-in
users write short posts, like and unlike them, and edit a profile (name and
bio). This project models the seven components that hold that behaviour.

- **Post card** (`PostCardComponent`). One post: the author line, the avatar, the bio and the like button. `handleLike` is modelled as the class `PostCard`.
  - The click is split at its one `await`:
    - `BeginLike` runs the guard and sets the in-flight flag, then returns the mutation to send.
    - `CompleteLike` applies the store's answer and clears the flag.
  - This split keeps reachable the second click that arrives while a mutation is awaited. The guard turns such a click away.
  - Each method is proved against a pure function on `LikeState` (`LikeRequestFor`, `Pending`, `Settled`, `Toggled`).
  - The lemmas about sequences of clicks work on `AfterClicks`.
- **Home feed and profile posts** (`Feed`). The server-rendered lists. Each takes the outcome of the posts query and of the liked-posts query and returns:
  - the requests it sent;
  - one of three renderings: an error panel, an empty state, or the cards;
  - for each card, whether it starts out liked.
- **Composer** (`CreatePostComponent`, class `CreatePost`). The "Share an update" form. It inserts the trimmed text as a new post of the signed-in viewer.
- **Profile editor** (`EditProfileComponent`, class `EditProfileForm`). It sends the trimmed name, and the trimmed bio or `null`, to the viewer's profile row. It then shows the store's message, a generic message, or success.
- **Header** (`HeaderComponent`) and **profile header** (`ProfileHeaderComponent`). The account menu and the profile card, as functions of the signed-in user and the profile row.
- **Shared helpers.**
  - `Initials` holds the `getInitials` helper that four components repeat, and the avatar text with its `'U'` fallback.
  - `JsText` holds the JavaScript string operations they use:
    - `trim` over the ECMAScript white-space and line-terminator characters;
    - `split(' ')`, which keeps empty words;
    - ASCII `toUpperCase`;
    - `slice(0, 2)`;
    - the decimal text of a positive count.
  - `Common` holds the rows and the outcome types.

Every store and session call is a parameter of the model.

- A mutation's result is a `StoreOutcome`. It is `Ok`, `Err(message)` for a returned error, or `Throw` for an exception caught by the handler.
- A query's result is a `Query`. It is `Failed(message)`, or `Fetched(data)`, whose data may be `null`.

## Model

| member | source | states |
|---|---|---|
| Common.OrElse | components/post-card.tsx:119 | The logical-or fallback (`name or 'Unknown User'`) gives the string itself when it is truthy (present and not empty), the fallback otherwise. |
| JsText.Trim | components/create-post.tsx:44 | `trim` removes white space at both ends and nothing else. The result is a contiguous slice of the input with only white space around it. Its ends are not white space. It is empty exactly when the input is all white space. |
| JsText.TrimUnique | components/create-post.tsx:53 | Suppose a text sits in the input with only white space around it, and its ends are not white space. Then that text is what `trim` returns. |
| JsText.TrimIdempotent | components/create-post.tsx:53 | Trimming an already trimmed text changes nothing. |
| JsText.Split | components/post-card.tsx:88 | `split(' ')` yields at least one word. No word holds a space. Joining the words with single spaces gives back the input. |
| JsText.SplitJoin | components/post-card.tsx:88 | Splitting undoes joining, for words without spaces. Empty words are kept. |
| JsText.ToUpper | components/post-card.tsx:91 | Upper-casing keeps the length and maps each character on its own. |
| JsText.Prefix | components/post-card.tsx:92 | `slice(0, n)` returns the first `min(n, length)` characters. |
| JsText.DecimalString | components/post-card.tsx:188 | The text of a count is made of digits, is never empty and has no leading zero. |
| JsText.DecimalRoundTrip | components/post-card.tsx:188 | Reading back the digits of a count gives the count. |
| Initials.FirstChar | components/post-card.tsx:89 | `word[0]` is `undefined` exactly for the empty word, and otherwise the word's first character. |
| Initials.FirstChars | components/post-card.tsx:89 | The map keeps the number of words and takes `word[0]` of each. |
| Initials.JoinChars | components/post-card.tsx:90 | `join('')` yields only characters that occur among the elements, and no more characters than there are elements. It is empty exactly when every element is `undefined`. |
| Initials.JoinCharsSingle | components/post-card.tsx:90 | A single element joins to its character, or to nothing when it is `undefined`. |
| Initials.JoinCharsAppend | components/post-card.tsx:90 | Joining a concatenation gives the two joins concatenated. With the single-element case, this fixes `join('')` as every defined element's character, in order. |
| Initials.GetInitials | components/post-card.tsx:86-93 | The initials are the upper-cased characters that start a word, in a left-to-right scan, cut to two. |
| Initials.HeadsOfSplit | components/post-card.tsx:88-90 | Mapping `word[0]` over the split words and joining them, where an empty word contributes nothing, picks out exactly the word starts of the scan. |
| Initials.WordStartsBySplit | components/headers.tsx:44-51 | The split-map-join pipeline equals the word-start scan. |
| Initials.InitialsEmptyIff | components/profile-header.tsx:21-28 | The initials are empty exactly when the name is all spaces, the empty name included. |
| Initials.InitialsOfWords | components/create-post.tsx:71-78 | For words joined by single spaces, the initials are the upper-cased first letters of the non-empty words, in order, at most two. |
| Initials.AvatarText | components/create-post.tsx:90 | A missing or empty name gives `'U'`. Otherwise the text is the initials. It is empty exactly when the name is present and all spaces. |
| PostCardComponent.LikeRequestFor | components/post-card.tsx:44-70 | There is no request without a user or while a toggle is in flight. Otherwise the request is a delete of the viewer's like row exactly when the post is liked, else an insert. It always names this post and this viewer. |
| PostCardComponent.Pending | components/post-card.tsx:46 | While the mutation is awaited, only the in-flight flag is set. |
| PostCardComponent.Settled | components/post-card.tsx:57-83 | Only success changes the flag and the counter: +1 on insert, `max(0, n-1)` on delete. An error or exception leaves both unchanged. The in-flight flag is always cleared. |
| PostCardComponent.Toggled | components/post-card.tsx:43-84 | A whole click: a guarded click changes nothing. A successful one flips the flag and moves the counter. A failed one only clears the in-flight flag. |
| PostCardComponent.LikeThenUnlike | components/post-card.tsx:57-74 | A successful like followed by a successful unlike restores the state exactly when the counter started non-negative. |
| PostCardComponent.UnlikeThenLike | components/post-card.tsx:57-74 | A successful unlike followed by a successful like restores the state exactly when the counter started at one or more, because the clamp at zero breaks the round trip. |
| PostCardComponent.CountNeverNegative | components/post-card.tsx:59 | A counter that starts non-negative stays non-negative, over any sequence of clicks and outcomes. |
| PostCardComponent.OthersLikesKept | components/post-card.tsx:57-77 | Suppose the counter includes the viewer's own like. Then the counter minus the viewer's like is invariant over any sequence of clicks and outcomes, and the clamp never fires. |
| PostCardComponent.LikeLabel | components/post-card.tsx:188 | The label is "Like" exactly when the count is not positive. Otherwise it is the decimal text of the count: digits with no leading zero whose value is the count. |
| PostCardComponent.CardAvatar | components/post-card.tsx:110 | The avatar is the author's initials, or `'U'` without a name. |
| PostCardComponent.AuthorLink | components/post-card.tsx:115-119 | The link always leads to `/profile/<author id>`. The text is the author's name, or "Unknown User" when the name is missing or empty. |
| PostCardComponent.CardBio | components/post-card.tsx:127-131 | The bio line is shown exactly when the bio is present and non-empty. |
| PostCardComponent.PostCard.constructor | components/post-card.tsx:29-32 | The initial state: the liked flag from the list, the counter from the row, nothing in flight and no user. |
| PostCardComponent.PostCard.SessionRead | components/post-card.tsx:35-41 | The session lookup sets the user and nothing else. |
| PostCardComponent.PostCard.BeginLike | components/post-card.tsx:43-46 | It returns `LikeRequestFor` of the state. The state becomes `Pending` when a request is sent and is otherwise unchanged. |
| PostCardComponent.PostCard.CompleteLike | components/post-card.tsx:48-83 | The new state is `Settled` of the old one. |
| PostCardComponent.PostCard.HandleLike | components/post-card.tsx:43-84 | The new state is `Toggled` of the old one. |
| Feed.LikedPostIds | components/post-feed.tsx:52 | An id is liked exactly when some returned like row names it. A failed query or a `null` result gives no ids. |
| Feed.PostsQuery | components/user-post.tsx:14-24 | Both lists ask for the posts newest first (`created_at`, descending), filtered by author only on a profile. |
| Feed.CardsFor | components/post-feed.tsx:58-66 | There is one card per post, in order. A card starts liked exactly when the viewer's id is truthy (present and not empty) and the post's id is liked. |
| Feed.PostFeed | components/post-feed.tsx:12-66 | The feed shows the error panel exactly when the posts query fails, and the empty state exactly when it returns no rows, each with its text. Otherwise it shows the cards. The liked-posts query is sent only when there are cards. |
| Feed.UserPosts | components/user-post.tsx:14-65 | The same three renderings with the profile's texts. The posts query is filtered by author. The liked-posts query is always sent. |
| Feed.FeedKeepsOrder | components/post-feed.tsx:21 | The cards are the fetched rows in the store's order, so a newest-first result stays newest first. |
| Feed.UserPostsKeepOrder | components/user-post.tsx:23-24 | The same for a profile's list. If every row is by the author, every card is too. |
| Feed.LikedIffLikeRow | components/post-feed.tsx:52-64 | A card starts liked exactly when the viewer's id is truthy and one of the viewer's like rows names the post. |
| Feed.LikeQueryFailureDegrades | components/post-feed.tsx:54-56 | A failed liked-posts query still renders every post, none liked, in both lists, for any profile. |
| Feed.NoViewerNothingLiked | components/post-feed.tsx:64 | Without a viewer, no card is liked. |
| Feed.UserPostsErrorIgnoresLikes | components/user-post.tsx:40-43 | A failed posts query gives the error text whatever the liked-posts query returned. |
| CreatePostComponent.PostInsertFor | components/create-post.tsx:44-56 | Nothing is inserted for blank text or without a user. Otherwise the insert is the trimmed text by the viewer, non-empty and without white space at its ends. |
| CreatePostComponent.PostEnabled | components/create-post.tsx:107 | The Post button is enabled exactly when the text is not blank and nothing is in flight. |
| CreatePostComponent.EnabledClickInserts | components/create-post.tsx:44 | An enabled click with a viewer always reaches the store. A blank text never does. |
| CreatePostComponent.InsertedContentIsTypedText | components/create-post.tsx:53 | The inserted text sits in the typed text with only white space around it. Submitting it again would send the same row. |
| CreatePostComponent.SubmitSettled | components/create-post.tsx:58-68 | The text is cleared only on success, so a failed post keeps it. The loading flag is always cleared. |
| CreatePostComponent.ComposerAvatar | components/create-post.tsx:90 | The avatar is the viewer's initials, or `'U'` without a profile name. |
| CreatePostComponent.CreatePost.constructor | components/create-post.tsx:16-19 | Empty text, nothing in flight, no user, no profile. |
| CreatePostComponent.CreatePost.SessionRead | components/create-post.tsx:23-40 | With a session, the user and the profile row, which may be missing, are set. Without one, nothing changes. |
| CreatePostComponent.CreatePost.Type | components/create-post.tsx:96-99 | Typing replaces the text and changes nothing else. |
| CreatePostComponent.CreatePost.BeginSubmit | components/create-post.tsx:42-56 | It returns `PostInsertFor` of the text and user. Loading is set exactly when an insert is sent. |
| CreatePostComponent.CreatePost.CompleteSubmit | components/create-post.tsx:58-68 | The new state is `SubmitSettled` of the old one. |
| CreatePostComponent.CreatePost.HandleSubmit | components/create-post.tsx:42-69 | A whole submit: no state change without an insert, else `SubmitSettled`. |
| EditProfileComponent.InitialForm | components/edit-profiile.tsx:25-29 | The fields start as the profile's name and bio, empty when missing, with no message and nothing in flight. |
| EditProfileComponent.ProfileUpdateFor | components/edit-profiile.tsx:40-46 | The update targets the profile's id and sets the trimmed name. The bio is `null` exactly when it is blank, and otherwise the trimmed, non-empty bio. |
| EditProfileComponent.SaveEnabled | components/edit-profiile.tsx:122 | Save is enabled exactly when nothing is in flight and the name is not blank. |
| EditProfileComponent.SavedNameNotBlank | components/edit-profiile.tsx:43 | A save through the enabled button sends a name that is non-empty and has no white space at its ends. |
| EditProfileComponent.SubmitStarted | components/edit-profiile.tsx:35-37 | While awaiting, loading is set and the old messages are cleared. The fields are kept. |
| EditProfileComponent.SubmitSettled | components/edit-profiile.tsx:48-61 | The result shows the store's message on an error, the generic message on an exception, and success otherwise. Loading is always cleared. |
| EditProfileComponent.SaveOutcomeFlags | components/edit-profiile.tsx:33-62 | After a whole save, success holds exactly when the store succeeded, with no message. Otherwise the matching message is shown. It is never still loading. |
| EditProfileComponent.EditProfileForm.constructor | components/edit-profiile.tsx:25-29 | The form starts as `InitialForm`. |
| EditProfileComponent.EditProfileForm.EditName | components/edit-profiile.tsx:99 | Typing replaces the name only. |
| EditProfileComponent.EditProfileForm.EditBio | components/edit-profiile.tsx:111 | Typing replaces the bio only. |
| EditProfileComponent.EditProfileForm.BeginSubmit | components/edit-profiile.tsx:33-46 | It returns `ProfileUpdateFor` of the fields. The state becomes `SubmitStarted`. |
| EditProfileComponent.EditProfileForm.CompleteSubmit | components/edit-profiile.tsx:48-61 | The new state is `SubmitSettled` of the old one. |
| EditProfileComponent.EditProfileForm.HandleSubmit | components/edit-profiile.tsx:33-62 | A whole save: the update sent, and `SubmitSettled(SubmitStarted(old))`. |
| HeaderComponent.AccountMenuFor | components/headers.tsx:74-101 | The menu exists exactly when a user is signed in. It holds the user's email, links to `/profile/<id>` and `/profile/edit`, and an avatar of at most two characters. It falls back to `'U'` and "User" when the profile name is missing or empty. |
| ProfileHeaderComponent.ProfileHeaderFor | components/profile-header.tsx:20-59 | The initials are the upper-cased word starts of the name, cut to two. They have no fallback: they are empty exactly when the name is all spaces. The bio is shown exactly when present and non-empty. The edit link appears exactly on the viewer's own profile. |

## Behaviour as coded

The model follows the code at these points.

- **A failed like or post is only logged.** It is not shown to the user. A failed like leaves the flag and the counter as they were. Nothing is changed and then undone, because the code never applies a change before the store answers.
- **An unlike clamps the counter at zero** (`Math.max(0, prev - 1)`). It does not simply decrement it. This is why `UnlikeThenLike` restores the state only from a count of one or more.
- **The profile list sends the liked-posts query before it looks at the posts outcome.** The home feed sends it only once it has rows to show.
- **Server-side queries return an error value and never throw.** So the lists have no exception path. Mutations in the client components can throw, and the handlers catch it.
- **The profile card's avatar has no `'U'` fallback.** A name made only of spaces gives an empty avatar.

## Left out

- The store and the session service are not part of this model. Every call to them is a parameter carrying its outcome.
- Nothing keeps the stored `likes_count` column and the `post_likes` rows consistent. The card only moves its local counter. No database-side trigger is modelled.
- Navigation is left out because it is routing, not state of these components:
  - `router.refresh` after a post;
  - the 1500 ms delayed redirect after a profile save;
  - `router.push` and `router.back`;
  - sign-out (`handleSignOut`);
  - the pages' redirect guards.
- `formatDate` (relative time via date-fns) is left out because it depends on the clock. `createdAt` is an integer timestamp, not an ISO string.
- JSX layout, styling, icons and the inert Comment and Share buttons are left out.
- React's scheduling is not modelled.
  - Effects and state updates are modelled as sequential method calls.
  - Concurrency is captured only through the split of each handler at its `await`.
  - A like click that starts before the session lookup returns sees no user, exactly as the guard does.
- The header's own session and profile lookup is not modelled as a stateful object. `AccountMenuFor` takes the user and the profile row it ends up with.
- The `maxLength={500}` limit of the bio field is enforced by the browser and is not modelled. The `required` attribute of the name field is not modelled either: the disabled Save button already excludes a blank name.
- JsText.ToUpper: only ASCII letters are upper-cased. The full Unicode case mapping of `toUpperCase`, which can also change the length, is not modelled.
- Strings are sequences of characters, not of UTF-16 code units. So `word[0]` and `slice(0, 2)` of a surrogate pair are not modelled.
- Feed.FeedKeepsOrder: the newest-first order is a property of the store's result. The lemma shows only that the lists keep the order they receive.
- EditProfileComponent.EditProfileForm.HandleSubmit: requires the Save button to be enabled, because a form whose submit button is disabled does not submit.
