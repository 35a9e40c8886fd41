/**
 * The list transforms the store applies to its `posts` array: replace by id,
 * remove by id and find by id. Each is a pure function on a sequence of posts;
 * its contract says what the result holds, element by element.
 */
module PostList {
  import opened Options

  /** Post ids are GraphQL `ID` values, compared with strict equality. */
  type PostId = string

  /** A post as the API returns it: identity is the id. */
  datatype Post = Post(id: PostId, title: string, body: string)

  /** Number of posts in `posts` whose id is `id`. */
  function CountId(posts: seq<Post>, id: PostId): (n: nat)
    ensures n <= |posts|
  {
    if posts == [] then 0
    else (if posts[0].id == id then 1 else 0) + CountId(posts[1..], id)
  }

  /** True when some post in `posts` has id `id`. */
  predicate HasId(posts: seq<Post>, id: PostId)
  {
    exists i :: 0 <= i < |posts| && posts[i].id == id
  }

  /**
   * The array mapped so that every post with the id of `data` becomes `data`:
   * same length, and every other post stays where it was.
   */
  function ReplaceById(posts: seq<Post>, data: Post): (r: seq<Post>)
    ensures |r| == |posts|
    ensures forall i :: 0 <= i < |posts| ==> r[i] == if posts[i].id == data.id then data else posts[i]
  {
    if posts == [] then []
    else [if posts[0].id == data.id then data else posts[0]] + ReplaceById(posts[1..], data)
  }

  /**
   * The array filtered to the posts whose id differs from `id`: no post with
   * that id is left, and every other post keeps its multiplicity.
   */
  function RemoveById(posts: seq<Post>, id: PostId): (r: seq<Post>)
    ensures |r| <= |posts|
    ensures forall i :: 0 <= i < |r| ==> r[i].id != id
    ensures forall p :: multiset(r)[p] == if p.id == id then 0 else multiset(posts)[p]
  {
    if posts == [] then []
    else
      assert posts == [posts[0]] + posts[1..];
      if posts[0].id == id then RemoveById(posts[1..], id)
      else [posts[0]] + RemoveById(posts[1..], id)
  }

  /**
   * The first post whose id is `id`, or None when there is none (the array
   * `find` that yields `undefined`).
   */
  function FindById(posts: seq<Post>, id: PostId): (r: Option<Post>)
    ensures r.None? <==> !HasId(posts, id)
    ensures r.Some? ==> exists i :: 0 <= i < |posts| && posts[i] == r.value && r.value.id == id
                                     && forall j :: 0 <= j < i ==> posts[j].id != id
  {
    if posts == [] then None
    else if posts[0].id == id then Some(posts[0])
    else
      var r := FindById(posts[1..], id);
      assert HasId(posts, id) ==> HasId(posts[1..], id) by {
        if HasId(posts, id) {
          var i :| 0 <= i < |posts| && posts[i].id == id;
          assert posts[1..][i - 1].id == id;
        }
      }
      assert r.Some? ==> exists i :: 0 <= i < |posts| && posts[i] == r.value && r.value.id == id
                                     && forall j :: 0 <= j < i ==> posts[j].id != id by {
        if r.Some? {
          var k :| 0 <= k < |posts| - 1 && posts[1..][k] == r.value && r.value.id == id
                   && forall j :: 0 <= j < k ==> posts[1..][j].id != id;
          assert forall j :: 0 <= j < k + 1 ==> posts[j].id != id by {
            forall j | 0 <= j < k + 1 ensures posts[j].id != id {
              if j > 0 { assert posts[j] == posts[1..][j - 1]; }
            }
          }
        }
      }
      r
  }

  /** Removing keeps relative order: it distributes over concatenation. */
  lemma {:induction false} RemoveByIdConcat(a: seq<Post>, b: seq<Post>, id: PostId)
    ensures RemoveById(a + b, id) == RemoveById(a, id) + RemoveById(b, id)
  {
    if a == [] {
      assert a + b == b;
    } else {
      assert (a + b)[1..] == a[1..] + b;
      RemoveByIdConcat(a[1..], b, id);
    }
  }

  /** Removal shortens the array by exactly the number of posts with that id. */
  lemma {:induction false} RemoveByIdLength(posts: seq<Post>, id: PostId)
    ensures |RemoveById(posts, id)| == |posts| - CountId(posts, id)
  {
    if posts != [] {
      RemoveByIdLength(posts[1..], id);
    }
  }

  /** When no post has the id, removal leaves the array as it was. */
  lemma {:induction false} RemoveByIdNoMatch(posts: seq<Post>, id: PostId)
    requires !HasId(posts, id)
    ensures RemoveById(posts, id) == posts
    ensures CountId(posts, id) == 0
  {
    if posts != [] {
      forall i | 0 <= i < |posts| - 1
        ensures posts[1..][i].id != id
      {
        assert posts[1..][i] == posts[i + 1];
      }
      RemoveByIdNoMatch(posts[1..], id);
    }
  }

  /** The number of matching posts is zero exactly when no post has the id. */
  lemma {:induction false} CountIdZero(posts: seq<Post>, id: PostId)
    ensures CountId(posts, id) == 0 <==> !HasId(posts, id)
  {
    if posts != [] {
      CountIdZero(posts[1..], id);
      if HasId(posts[1..], id) {
        var i :| 0 <= i < |posts| - 1 && posts[1..][i].id == id;
        assert posts[i + 1].id == id;
      }
      if HasId(posts, id) && posts[0].id != id {
        var i :| 0 <= i < |posts| && posts[i].id == id;
        assert posts[1..][i - 1].id == id;
      }
    }
  }
}
