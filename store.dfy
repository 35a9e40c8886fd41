/**
 * The store object itself: the state record as fields that the mutations
 * assign in place, and the actions as sequences of mutation commits around
 * a network response that arrives as a parameter. Each method is proved to
 * move the state exactly as the corresponding StoreSpec function does.
 */
module VuexStore {
  import opened PostList
  import opened Pagination
  import opened Api
  import opened StoreSpec

  class Store {
    var page: int
    const limit: Pos
    var posts: seq<Post>
    var count: int
    var editedIndex: EditTarget
    var postTitle: string
    var postBody: string
    var loading: bool

    /** The fields as a state record. */
    function Snapshot(): State
      reads this
    {
      State(page, limit, posts, count, editedIndex, postTitle, postBody, loading)
    }

    /** The `pagesCount` getter. */
    function PagesCountGetter(): (r: int)
      reads this
      ensures 2 * limit * r - limit <= 2 * count < 2 * limit * r + limit
    {
      PagesCount(count, limit)
    }

    constructor ()
      ensures Snapshot() == Initial()
    {
      page := 1;
      limit := PageSize;
      posts := [];
      count := 0;
      editedIndex := NotEditing;
      postTitle := "";
      postBody := "";
      loading := false;
    }

    // -------------------------------------------------------------------------
    // Mutations
    // -------------------------------------------------------------------------

    method SetLoading(value: bool)
      modifies this
      ensures Snapshot() == StoreSpec.SetLoading(old(Snapshot()), value)
    {
      loading := value;
    }

    /** Returns false when the mutation throws; the state is then unchanged. */
    method SetPosts(data: PostsQueryData) returns (ok: bool)
      modifies this
      ensures ok == StoreSpec.SetPosts(old(Snapshot()), data).Ok?
      ensures ok ==> Snapshot() == StoreSpec.SetPosts(old(Snapshot()), data).value
      ensures !ok ==> Snapshot() == old(Snapshot())
    {
      var listed := ListedPosts(data);
      if listed.Null? {
        return false;
      }
      posts := if listed.Present? then listed.value else [];
      count := TotalCount(data);
      ok := true;
    }

    method AppendPost(data: Post)
      modifies this
      ensures Snapshot() == StoreSpec.AppendPost(old(Snapshot()), data)
    {
      count := count + 1;
      posts := posts + [data];
    }

    method ReplacePost(data: Post)
      modifies this
      ensures Snapshot() == StoreSpec.ReplacePost(old(Snapshot()), data)
    {
      posts := ReplaceById(posts, data);
    }

    method RemovePost(postId: PostId)
      modifies this
      ensures Snapshot() == StoreSpec.RemovePost(old(Snapshot()), postId)
    {
      count := count - 1;
      posts := RemoveById(posts, postId);
    }

    method SetPage(value: int)
      modifies this
      ensures Snapshot() == StoreSpec.SetPage(old(Snapshot()), value)
    {
      page := value;
    }

    method SetPostTitle(value: string)
      modifies this
      ensures Snapshot() == StoreSpec.SetPostTitle(old(Snapshot()), value)
    {
      postTitle := value;
    }

    /** Returns false when the mutation throws (no post has the id); the state is then unchanged. */
    method EditPost(postId: PostId) returns (ok: bool)
      modifies this
      ensures ok == StoreSpec.EditPost(old(Snapshot()), postId).Ok?
      ensures ok ==> Snapshot() == StoreSpec.EditPost(old(Snapshot()), postId).value
      ensures !ok ==> Snapshot() == old(Snapshot())
    {
      var found := FindById(posts, postId);
      if found.None? {
        return false;
      }
      editedIndex := Editing(postId);
      postTitle := found.value.title;
      postBody := found.value.body;
      ok := true;
    }

    method SetPostBody(value: string)
      modifies this
      ensures Snapshot() == StoreSpec.SetPostBody(old(Snapshot()), value)
    {
      postBody := value;
    }

    method SetToZeroPosts()
      modifies this
      ensures Snapshot() == StoreSpec.SetToZeroPosts(old(Snapshot()))
    {
      posts := [];
      count := 0;
      page := 1;
    }

    method SetToZeroPost()
      modifies this
      ensures Snapshot() == StoreSpec.SetToZeroPost(old(Snapshot()))
    {
      editedIndex := NotEditing;
      postTitle := "";
      postBody := "";
    }

    // -------------------------------------------------------------------------
    // Actions: set the flag, send the request, commit on the response, clear the flag
    // -------------------------------------------------------------------------

    method LoadPage(value: int, response: Response<PostsQueryData>) returns (request: Request, fulfilled: bool)
      modifies this
      ensures Dispatch(request, Snapshot(), fulfilled) == StoreSpec.LoadPage(old(Snapshot()), value, response)
    {
      SetPage(value);
      request, fulfilled := GetPosts(response);
    }

    method GetPosts(response: Response<PostsQueryData>) returns (request: Request, fulfilled: bool)
      modifies this
      ensures Dispatch(request, Snapshot(), fulfilled) == StoreSpec.GetPosts(old(Snapshot()), response)
    {
      SetLoading(true);
      request := PostsQuery(page, limit);
      fulfilled := false;
      if response.Resolved? {
        fulfilled := SetPosts(response.data);
      }
      SetLoading(false);
    }

    method CreatePost(response: Response<Field<Post>>) returns (request: Request, fulfilled: bool)
      modifies this
      ensures Dispatch(request, Snapshot(), fulfilled) == StoreSpec.CreatePost(old(Snapshot()), response)
    {
      SetLoading(true);
      request := CreatePostMutation(postTitle, postBody);
      fulfilled := response.Resolved?;
      if response.Resolved? && response.data.Present? && page == PagesCountGetter() {
        AppendPost(response.data.value);
      }
      SetLoading(false);
    }

    method PatchPost(response: Response<Field<Post>>) returns (request: Request, fulfilled: bool)
      modifies this
      ensures Dispatch(request, Snapshot(), fulfilled) == StoreSpec.PatchPost(old(Snapshot()), response)
    {
      SetLoading(true);
      request := UpdatePostMutation(editedIndex, postTitle, postBody);
      fulfilled := response.Resolved?;
      if response.Resolved? && response.data.Present? {
        ReplacePost(response.data.value);
      }
      SetLoading(false);
    }

    method DeletePost(postId: PostId, response: Response<Field<bool>>) returns (request: Request, fulfilled: bool)
      modifies this
      ensures Dispatch(request, Snapshot(), fulfilled) == StoreSpec.DeletePost(old(Snapshot()), postId, response)
    {
      SetLoading(true);
      request := DeletePostMutation(postId);
      fulfilled := response.Resolved?;
      if response == Resolved(Present(true)) {
        RemovePost(postId);
      }
      SetLoading(false);
    }
  }
}
