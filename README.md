# Post-list store

A model of the centralised store of a small browser client that lists,
creates, edits and deletes blog posts through a GraphQL API. The store holds
one state record: the current `page` and the fixed page size `limit` (15),
the `posts` shown (each `{id, title, body}`), the server's total `count`, an
edit buffer (`editedIndex`, `postTitle`, `postBody`) and a `loading` flag.
Mutations assign fields of that record in place; the single getter
`pagesCount` rounds `count / limit` to the nearest integer. Four actions
set `loading`, send one GraphQL operation, act on the response and clear
`loading` whatever happened: `getPosts` stores every resolved response,
while `createPost`, `patchPost` and `deletePost` commit their mutation only
when the response has the right shape. The fifth, `loadPage`, commits the
new page unconditionally and then dispatches `getPosts` for the rest.

The model has six modules:

- `Options` (option.dfy): the optional value returned by the search by id.
- `PostList` (post_list.dfy): the post record and the pure list transforms
  the mutations use — replace by id, remove by id, find by id — each
  specified element by element.
- `Pagination` (pagination.dfy): `pagesCount` computed exactly over the
  integers as `(2*count + limit) div (2*limit)`, proved equal to rounding the
  real quotient half up, and compared with the number of pages the posts
  actually fill.
- `Api` (api.dfy): the response shapes. A response is a value given to the
  action (`Rejected` or `Resolved(data)`); each field is `Absent`, `Null` or
  `Present`, so that the path lookups keep their default-on-missing and
  null-stays-null behaviour.
- `StoreSpec` (store_spec.dfy): the state record as a datatype, one function
  per mutation and per action, and lemmas stating what each does to the
  record, including which fields it leaves alone.
- `VuexStore` (store.dfy): the `Store` class whose fields are the state
  record. Each mutation is a method that assigns the fields; each action is a
  method that commits those mutations in order. Every method is proved to
  move `Snapshot()` exactly as the matching `StoreSpec` function does, so the
  lemmas about the functions are facts about the class.

Two mutations can throw, and the model keeps those paths: storing a posts
response whose list is `null` spreads `null` (a `TypeError`, nothing
assigned), and loading a post into the edit buffer when no post has the id
deep-copies `undefined` (a `SyntaxError`, nothing assigned). An action whose
callback throws, or whose request is rejected, returns a promise that
rejects; the model reports this as `fulfilled == false` and still clears
`loading`.

The count and the list are tracked independently, and the model proves that
they drift: appending keeps `count - |posts|`, replacing keeps it, and
removing changes it by `matches - 1`, so removing an id that no post has
still lowers the count. Also, because `pagesCount` rounds to nearest rather
than up, a last page that is less than half full is not counted
(`PagesCountAgainstPagesNeeded`), and `createPost` appends only when the
current page equals that rounded number.

## Model

| member | source | states |
|---|---|---|
| `PostList.ReplaceById` | src/store/index.js:37-39 | The mapped list has the same length; at each index it holds `data` when the post there has `data`'s id, and the old post otherwise. |
| `PostList.RemoveById` | src/store/index.js:40-43 | The filtered list is no longer than the input, holds no post with the id, and every other post keeps its multiplicity. |
| `PostList.RemoveByIdConcat` | src/store/index.js:42 | Filtering distributes over concatenation, so the surviving posts keep their relative order. |
| `PostList.RemoveByIdLength` | src/store/index.js:42 | The filtered list is shorter by exactly the number of posts that had the id. |
| `PostList.RemoveByIdNoMatch` | src/store/index.js:42 | When no post has the id, filtering returns the list unchanged. |
| `PostList.CountIdZero` | src/store/index.js:42 | The number of posts with an id is zero exactly when no post has it. |
| `PostList.FindById` | src/store/index.js:51 | The search yields nothing exactly when no post has the id; otherwise it yields the post at the first index whose id matches. |
| `Pagination.PagesCount` | src/store/index.js:23 | The result r satisfies r - 1/2 <= count/limit < r + 1/2: count/limit rounded to nearest, halves up, for negative counts too. |
| `Pagination.PagesCountUnique` | src/store/index.js:23 | Those bounds determine the result: any integer within them is the page count. |
| `Pagination.PagesCountIsRounding` | src/store/index.js:23 | The integer formula equals the floor of count/limit + 1/2 over the reals, the rounding the getter applies to the quotient. |
| `Pagination.PagesCountAgainstPagesNeeded` | src/store/index.js:23 | The page count equals the number of pages the posts fill when the last page is empty, full or at least half full, and is one less otherwise. |
| `StoreSpec.SetPostsMirrorsResponse` | src/store/index.js:29-32 | Read directly off the response fields: storing throws (a TypeError) exactly when `posts` is present and its list is null; otherwise the list is the response's list when `posts` and its `data` are present and empty on any missing or null step, the count is `totalCount` when `posts`, `meta` and `totalCount` are all present and 0 otherwise, and no other field changes. |
| `StoreSpec.AppendPostEffect` | src/store/index.js:33-36 | Appending raises the count by one and adds the post after the unchanged old posts; the count-minus-length drift, page, buffer and flag are kept. |
| `StoreSpec.ReplacePostEffect` | src/store/index.js:37-39 | Replacing keeps count and length; each post with the new post's id becomes it, every other post stays at its index, and with no match the list is unchanged. |
| `StoreSpec.RemovePostEffect` | src/store/index.js:40-43 | Removing lowers the count by exactly one; no post with the id remains, other posts keep their multiplicity, the list shrinks by the number of matches, and the drift changes by matches minus one. |
| `StoreSpec.RemoveUnmatchedStillDecrements` | src/store/index.js:40-43 | Removing an id no post has leaves the list as it was but still lowers the count, so a count equal to the length stops being equal. |
| `StoreSpec.EditPostEffect` | src/store/index.js:50-55 | Loading a post for editing throws exactly when no post has the id; otherwise it records the id and the title and body of the first post with it, and leaves the list state alone. |
| `StoreSpec.SetToZeroPostsEffect` | src/store/index.js:59-63 | The list reset yields page 1, no posts and count 0, leaves buffer, limit and flag alone, and is idempotent. |
| `StoreSpec.SetToZeroPostEffect` | src/store/index.js:64-68 | The buffer reset yields no edited post and empty title and body, leaves the list state alone, and is idempotent. |
| `StoreSpec.ResetsCommute` | src/store/index.js:59-68 | The two resets commute, and together they restore the initial state apart from limit and flag. |
| `StoreSpec.GetPostsEffect` | src/store/index.js:75-90 | The query asks for the current page and limit; the promise fulfils exactly when a response arrived whose list is not null, and then the state mirrors it; otherwise only the flag is touched; the flag ends clear. |
| `StoreSpec.LoadPageEffect` | src/store/index.js:71-74 | The requested page is stored before the fetch, so it is the page afterwards whatever the response, and it is the page asked for. |
| `StoreSpec.CreatePostEffect` | src/store/index.js:91-107 | The buffer's title and body are sent; the created post is appended and the count raised exactly when the response carries a post and the page equals the page count; otherwise list state is unchanged; the flag ends clear. |
| `StoreSpec.PatchPostEffect` | src/store/index.js:108-125 | The edited id and the buffer are sent; the list is replaced by id exactly when the response carries the updated post; count and length never change; the flag ends clear. |
| `StoreSpec.DeletePostEffect` | src/store/index.js:127-140 | The id is sent; the count drops by one exactly when the response reports the deletion as true, and then no post with the id remains; otherwise list state is unchanged; the flag ends clear. |
| `VuexStore.Store.constructor` | src/store/index.js:11-21 | The store starts on page 1 with limit 15, no posts, count 0, no edited post, empty title and body, not loading. |
| `VuexStore.Store.PagesCountGetter` | src/store/index.js:22-24 | The getter reads count and limit and returns their quotient rounded to nearest, halves up. |
| `VuexStore.Store.SetLoading` | src/store/index.js:26-28 | Only the flag is assigned. |
| `VuexStore.Store.SetPosts` | src/store/index.js:29-32 | The fields move as the response-mirroring function says, or stay as they were when it throws. |
| `VuexStore.Store.AppendPost` | src/store/index.js:33-36 | The fields move as the append function says. |
| `VuexStore.Store.ReplacePost` | src/store/index.js:37-39 | The fields move as the replace function says. |
| `VuexStore.Store.RemovePost` | src/store/index.js:40-43 | The fields move as the remove function says. |
| `VuexStore.Store.SetPage` | src/store/index.js:44-46 | Only the page is assigned. |
| `VuexStore.Store.SetPostTitle` | src/store/index.js:47-49 | Only the buffer's title is assigned. |
| `VuexStore.Store.EditPost` | src/store/index.js:50-55 | The fields move as the edit function says, or stay as they were when it throws. |
| `VuexStore.Store.SetPostBody` | src/store/index.js:56-58 | Only the buffer's body is assigned. |
| `VuexStore.Store.SetToZeroPosts` | src/store/index.js:59-63 | The fields move as the list reset says. |
| `VuexStore.Store.SetToZeroPost` | src/store/index.js:64-68 | The fields move as the buffer reset says. |
| `VuexStore.Store.LoadPage` | src/store/index.js:71-74 | Request, final fields and outcome are those of the load-page function: set the page, then fetch. |
| `VuexStore.Store.GetPosts` | src/store/index.js:75-90 | Request, final fields and outcome are those of the fetch function. |
| `VuexStore.Store.CreatePost` | src/store/index.js:91-107 | Request, final fields and outcome are those of the create function. |
| `VuexStore.Store.PatchPost` | src/store/index.js:108-125 | Request, final fields and outcome are those of the patch function. |
| `VuexStore.Store.DeletePost` | src/store/index.js:127-140 | Request, final fields and outcome are those of the delete function. |

## Left out

- The network client and the GraphQL documents (src/store/queries.js, src/helpers/apolloClient.js) are not part of this model: each action receives the settled response as a parameter, and returns the variables it would send.
- Promises and awaiting are not modelled: an action runs as one step, so the intermediate state with `loading` set while the request is in flight is not observable between calls, and overlapping actions are not modelled.
- The memoisation plugin of the store is not modelled; none of the actions here go through it.
- The router (src/router/index.js), the views and the reactivity of the framework are not part of this model. The page passed to `loadPage` is taken to be an integer; a view passing a string would make the strict comparison with `pagesCount` fail, which is not modelled.
- Floating point: `pagesCount` is exact over the integers; the rounding of a double-precision quotient for very large counts is not modelled, and neither is a non-numeric `totalCount` (it is an integer here, and its conversion is modelled only for missing and null).
- The deep copy in the edit mutation is a value copy; datatypes are already values, so only its failure on a missing post is modelled.
- Truthiness of response fields is reduced to the cases the schema allows: a present post object is truthy, a deletion flag only when it is `true`, missing and `null` never.
