/**
 * The shapes of the GraphQL responses the store reads. The network call
 * itself is not modelled: each action receives its response as a value.
 */
module Api {
  import opened PostList

  /** A field of a response object: missing, null, or holding a value. */
  datatype Field<+T> = Absent | Null | Present(value: T)

  /** The settled network call: a rejected promise, or the response's `data`. */
  datatype Response<+T> = Rejected | Resolved(data: T)

  /** `posts.meta` of the posts query. */
  datatype PageMeta = PageMeta(totalCount: Field<int>)

  /** `posts` of the posts query: one page of posts and its metadata. */
  datatype PostsPage = PostsPage(data: Field<seq<Post>>, meta: Field<PageMeta>)

  /** `data` of the posts query. A missing or null `data` reads like `posts: Absent`. */
  datatype PostsQueryData = PostsQueryData(posts: Field<PostsPage>)

  /**
   * The path lookup of `posts.data`: a null or missing step before the leaf
   * makes the whole path missing; a null leaf stays null.
   */
  function ListedPosts(d: PostsQueryData): Field<seq<Post>>
  {
    if d.posts.Present? then d.posts.value.data else Absent
  }

  /**
   * `posts.meta.totalCount` as a number: 0 when any step of the path is
   * missing or null (a missing value takes the default 0, a null one
   * converts to 0).
   */
  function TotalCount(d: PostsQueryData): int
  {
    if d.posts.Present? && d.posts.value.meta.Present? && d.posts.value.meta.value.totalCount.Present?
    then d.posts.value.meta.value.totalCount.value
    else 0
  }
}
