/** Values exchanged with the hosted table store, shared by every component. */
module Common {

  datatype Option<+T> = None | Some(value: T)

  type UserId = string
  type PostId = string

  /** What an awaited store mutation came back with: success, a response whose
      `error` field is set (carrying `error.message`), or a rejected promise. */
  datatype StoreOutcome = Ok | Err(message: string) | Throw

  /** What a `select` came back with: the `error` field set, or `data`, which
      the client may leave `null`. */
  datatype Query<T> = Failed(message: string) | Fetched(data: Option<seq<T>>)

  /** The author columns joined onto a post by `profiles (name, bio)`. */
  datatype AuthorInfo = AuthorInfo(name: string, bio: Option<string>)

  /** A row of `posts` with its joined author; `profiles` is `null` when the
      join finds no author. `createdAt` is the server timestamp, as a number. */
  datatype Post = Post(
    id: PostId,
    content: string,
    createdAt: int,
    authorId: UserId,
    likesCount: int,
    profiles: Option<AuthorInfo>)

  /** A row of `profiles`. */
  datatype Profile = Profile(id: UserId, name: string, email: string, bio: Option<string>)

  /** A row of `post_likes` projected by `select('post_id')`. */
  datatype LikeRow = LikeRow(postId: PostId)

  /** The user of a session. */
  datatype SessionUser = SessionUser(id: UserId, email: string)

  /** JavaScript truthiness of a string that may be `null`: `null`,
      `undefined` and `''` are falsy, every other string is truthy. */
  predicate Truthy(s: Option<string>) {
    s.Some? && s.value != ""
  }

  /** `s || fallback` for a string that may be `null`. */
  function OrElse(s: Option<string>, fallback: string): (r: string)
    ensures Truthy(s) ==> r == s.value
    ensures !Truthy(s) ==> r == fallback
  {
    if Truthy(s) then s.value else fallback
  }
}
