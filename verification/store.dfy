/** The module-level list of posts and the route handlers that change it:
    create (POST /api/posts), delete (DELETE /api/posts/<id>) and update
    (PUT /api/posts/<id>), with the lookup they share. */
module Store {
  import opened Posts
  import opened Listing
  import opened Search

  /** The check of a create body: title first, then content. */
  function InvalidPostData(body: Body): (r: Option<Error>)
    ensures r == Some(TitleMissed) <==> body.title.None?
    ensures r == Some(ContentMissed) <==> body.title.Some? && body.content.None?
    ensures r == None <==> body.title.Some? && body.content.Some?
  {
    if body.title.None? then Some(TitleMissed)
    else if body.content.None? then Some(ContentMissed)
    else None
  }

  /** `max(post['id'] for post in posts)`. */
  function MaxId(posts: seq<Post>): (m: int)
    requires posts != []
    ensures forall k :: 0 <= k < |posts| ==> posts[k].id <= m
    ensures exists k :: 0 <= k < |posts| && posts[k].id == m
  {
    if |posts| == 1 then posts[0].id
    else
      var rest := MaxId(posts[1..]);
      if posts[0].id >= rest then posts[0].id else rest
  }

  /** The id a create assigns: one more than the largest id, or 1 when the
      store is empty (the ValueError of max on an empty sequence). */
  function NextId(posts: seq<Post>): (r: int)
    ensures forall k :: 0 <= k < |posts| ==> posts[k].id < r
    ensures posts == [] ==> r == 1
    ensures posts != [] ==> exists k :: 0 <= k < |posts| && posts[k].id == r - 1
  {
    if posts == [] then 1 else MaxId(posts) + 1
  }

  /** The index of the first post with the given id, if any. */
  function FirstIndex(posts: seq<Post>, id: int): (r: Option<nat>)
    ensures r.None? <==> forall k :: 0 <= k < |posts| ==> posts[k].id != id
    ensures r.Some? ==> r.value < |posts| && posts[r.value].id == id &&
                        forall k :: 0 <= k < r.value ==> posts[k].id != id
  {
    if posts == [] then None
    else if posts[0].id == id then Some(0)
    else
      match FirstIndex(posts[1..], id)
      case None => None
      case Some(i) => Some(i + 1)
  }

  /** Python's `list.remove(x)` for an x the list holds, the only call the
      delete handler makes: drop the first element equal to x. Where Python
      raises ValueError for an absent x, this returns the list unchanged. */
  function RemoveFirst(posts: seq<Post>, x: Post): (r: seq<Post>)
    ensures x in posts ==> |r| == |posts| - 1
    ensures x !in posts ==> r == posts
  {
    if posts == [] then []
    else if posts[0] == x then posts[1..]
    else [posts[0]] + RemoveFirst(posts[1..], x)
  }

  /** Exactly one copy of a held x goes and every other post stays; an
      absent x, which Python rejects with ValueError, leaves the list as is. */
  lemma {:induction false} RemoveFirstCount(posts: seq<Post>, x: Post)
    ensures multiset(RemoveFirst(posts, x)) == multiset(posts) - multiset{x}
  {
    if posts != [] {
      assert posts == [posts[0]] + posts[1..];
      RemoveFirstCount(posts[1..], x);
    }
  }

  /** Removing the post that the lookup found removes it at its own index:
      no earlier post is equal to it, since none has its id. */
  lemma RemoveFirstFound(posts: seq<Post>, id: int)
    requires FirstIndex(posts, id).Some?
    ensures var i := FirstIndex(posts, id).value;
      RemoveFirst(posts, posts[i]) == posts[..i] + posts[i + 1..]
  {
    RemoveFirstAt(posts, FirstIndex(posts, id).value);
  }

  /** `list.remove(x)` drops the element at i when no earlier one equals it. */
  lemma {:induction false} RemoveFirstAt(posts: seq<Post>, i: nat)
    requires i < |posts| && forall k :: 0 <= k < i ==> posts[k] != posts[i]
    ensures RemoveFirst(posts, posts[i]) == posts[..i] + posts[i + 1..]
  {
    if i > 0 {
      var tail := posts[1..];
      assert tail[i - 1] == posts[i];
      RemoveFirstAt(tail, i - 1);
      calc {
        RemoveFirst(posts, posts[i]);
        [posts[0]] + RemoveFirst(tail, posts[i]);
        [posts[0]] + (tail[..i - 1] + tail[i..]);
        { assert tail[..i - 1] == posts[1..i] && tail[i..] == posts[i + 1..]; }
        [posts[0]] + (posts[1..i] + posts[i + 1..]);
        { assert posts[..i] == [posts[0]] + posts[1..i]; }
        posts[..i] + posts[i + 1..];
      }
    }
  }

  /** Python's `post.update(patch)`: every key of the patch overwrites the
      post's field of that name, `id` included. */
  function Merge(p: Post, patch: Body): Post {
    Post(if patch.id.Some? then patch.id.value else p.id,
         if patch.title.Some? then patch.title.value else p.title,
         if patch.content.Some? then patch.content.value else p.content)
  }

  /** Keys present in the patch take the patch's value; absent keys keep
      the post's. */
  lemma MergeFields(p: Post, patch: Body)
    ensures patch.id.None? ==> Merge(p, patch).id == p.id
    ensures patch.title.None? ==> Merge(p, patch).title == p.title
    ensures patch.content.None? ==> Merge(p, patch).content == p.content
    ensures patch.id.Some? ==> Merge(p, patch).id == patch.id.value
    ensures patch.title.Some? ==> Merge(p, patch).title == patch.title.value
    ensures patch.content.Some? ==> Merge(p, patch).content == patch.content.value
  {
  }

  /** An empty patch changes nothing, and applying a patch twice is the same
      as applying it once. */
  lemma MergeEmptyAndIdempotent(p: Post, patch: Body)
    ensures Merge(p, Body(None, None, None)) == p
    ensures Merge(Merge(p, patch), patch) == Merge(p, patch)
  {
  }

  /** Appending a post with the next id keeps ids unique. */
  lemma AppendNextIdKeepsUnique(posts: seq<Post>, p: Post)
    requires UniqueIds(posts) && p.id == NextId(posts)
    ensures UniqueIds(posts + [p])
  {
  }

  /** Removing one post keeps ids unique. */
  lemma RemoveAtKeepsUnique(posts: seq<Post>, i: nat)
    requires UniqueIds(posts) && i < |posts|
    ensures UniqueIds(posts[..i] + posts[i + 1..])
  {
    var r := posts[..i] + posts[i + 1..];
    forall a, b | 0 <= a < b < |r| ensures r[a].id != r[b].id {
      var a' := if a < i then a else a + 1;
      var b' := if b < i then b else b + 1;
      assert r[a] == posts[a'] && r[b] == posts[b'];
    }
  }

  /** A patch without an id keeps ids unique. */
  lemma PatchWithoutIdKeepsUnique(posts: seq<Post>, i: nat, patch: Body)
    requires UniqueIds(posts) && i < |posts| && patch.id.None?
    ensures UniqueIds(posts[i := Merge(posts[i], patch)])
  {
  }

  /** A patch carrying an id can give two posts the same id: on the seed
      store, patching post 2 with {"id": 1}. */
  lemma PatchWithIdCanDuplicate()
    ensures UniqueIds(Seed())
    ensures !UniqueIds(Seed()[1 := Merge(Seed()[1], Body(Some(1), None, None))])
  {
    var s := Seed()[1 := Merge(Seed()[1], Body(Some(1), None, None))];
    assert s[0].id == s[1].id;
  }

  /** The store: the module-level list POSTS. */
  class PostStore {
    var posts: seq<Post>

    /** The store as the process starts. */
    constructor ()
      ensures posts == Seed()
    {
      posts := Seed();
    }

    /** `find_post_by_id`: scan the store and return the first post with the
        id. `at` is where it is stored: the source hands back the stored
        dictionary itself, and an update writes through it. */
    method FindPostById(postId: int) returns (post: Option<Post>, at: nat)
      ensures post.None? <==> forall k :: 0 <= k < |posts| ==> posts[k].id != postId
      ensures post.Some? ==> at < |posts| && post.value == posts[at] && posts[at].id == postId &&
                             forall k :: 0 <= k < at ==> posts[k].id != postId
      ensures post.Some? ==> FirstIndex(posts, postId) == Some(at)
    {
      at := 0;
      while at < |posts|
        invariant at <= |posts|
        invariant forall k :: 0 <= k < at ==> posts[k].id != postId
      {
        if posts[at].id == postId {
          return Some(posts[at]), at;
        }
        at := at + 1;
      }
      post := None;
    }

    /** POST /api/posts: validate the body, give it the next id (whatever id
        the client sent) and append it. */
    method Create(body: Body) returns (r: Result<Post, Error>)
      modifies this
      ensures InvalidPostData(body).Some? ==>
        r == Failure(InvalidPostData(body).value) && posts == old(posts)
      ensures InvalidPostData(body).None? ==>
        r == Success(Post(NextId(old(posts)), body.title.value, body.content.value)) &&
        posts == old(posts) + [r.value]
      ensures UniqueIds(old(posts)) ==> UniqueIds(posts)
    {
      var invalid := InvalidPostData(body);
      if invalid.Some? {
        return Failure(invalid.value);
      }
      var newPost := Post(NextId(posts), body.title.value, body.content.value);
      if UniqueIds(posts) {
        AppendNextIdKeepsUnique(posts, newPost);
      }
      posts := posts + [newPost];
      r := Success(newPost);
    }

    /** DELETE /api/posts/<id>: remove the first post with the id; the
        success answer carries the id for its message. */
    method Delete(postId: int) returns (r: Result<int, Error>)
      modifies this
      ensures FirstIndex(old(posts), postId).None? ==>
        r == Failure(NotFound) && posts == old(posts)
      ensures FirstIndex(old(posts), postId).Some? ==>
        var i := FirstIndex(old(posts), postId).value;
        r == Success(postId) && posts == old(posts)[..i] + old(posts)[i + 1..]
      ensures UniqueIds(old(posts)) ==> UniqueIds(posts)
    {
      var post, at := FindPostById(postId);
      if post.None? {
        return Failure(NotFound);
      }
      RemoveFirstFound(posts, postId);
      if UniqueIds(posts) {
        RemoveAtKeepsUnique(posts, at);
      }
      posts := RemoveFirst(posts, post.value);
      r := Success(postId);
    }

    /** PUT /api/posts/<id>: merge the patch into the first post with the id,
        in place, and answer with the merged post. */
    method Update(postId: int, patch: Body) returns (r: Result<Post, Error>)
      modifies this
      ensures FirstIndex(old(posts), postId).None? ==>
        r == Failure(NotFound) && posts == old(posts)
      ensures FirstIndex(old(posts), postId).Some? ==>
        var i := FirstIndex(old(posts), postId).value;
        r == Success(Merge(old(posts)[i], patch)) && posts == old(posts)[i := r.value]
      ensures patch.id.None? && UniqueIds(old(posts)) ==> UniqueIds(posts)
    {
      var post, at := FindPostById(postId);
      if post.None? {
        return Failure(NotFound);
      }
      var merged := Merge(post.value, patch);
      if patch.id.None? && UniqueIds(posts) {
        PatchWithoutIdKeepsUnique(posts, at, patch);
      }
      posts := posts[at := merged];
      r := Success(merged);
    }

    /** GET /api/posts: reads the store and leaves it as it is. */
    method Get(sort: Option<string>, direction: Option<string>) returns (r: Result<seq<Post>, Error>)
      ensures r == GetPosts(posts, sort, direction)
      ensures Blank(sort) && Blank(direction) ==> r == Success(posts)
      ensures r.Success? ==> forall p :: p in r.value ==> p in posts
    {
      r := GetPosts(posts, sort, direction);
      if r.Success? && !(Blank(sort) && Blank(direction)) {
        var q := ParseListQuery(sort, direction).value;
        ListingSubset(posts, q.field, q.dir);
      }
    }

    /** GET /api/posts/search: reads the store and leaves it as it is. */
    method Find(title: Option<string>, content: Option<string>) returns (r: seq<Post>)
      ensures r == SearchPosts(posts, title, content)
      ensures IsSubsequence(r, posts)
    {
      r := SearchPosts(posts, title, content);
      SearchIsOrderedFilter(posts, title, content);
    }
  }

  /** After "Third" is added to the seed posts, listing by title in
      descending order answers Third, Second post, First post. */
  lemma SeedPlusThirdByTitleDesc()
    ensures var third, second, first := Post(3, "Third", "c"), Seed()[1], Seed()[0];
      GetPosts(Seed() + [third], Some("title"), Some("desc")) == Success([third, second, first])
  {
    var third, second, first := Post(3, "Third", "c"), Seed()[1], Seed()[0];
    var posts := Seed() + [third];
    assert posts == [first, second, third];
    assert posts[1..] == [second, third] && [second, third][1..] == [third];
    assert Values([third], Title) == ["Third"];
    assert Values([second, third], Title) == ["Second post", "Third"];
    assert Values(posts, Title) == ["First post", "Second post", "Third"];
    var sorted := ["Third", "Second post", "First post"];
    assert SortValues(["First post", "Second post", "Third"], Desc) == sorted;
    assert Matching(posts, Title, "Third") == [third] by {
      assert Matching([third], Title, "Third") == [third];
      assert Matching([second, third], Title, "Third") == [third];
    }
    assert Matching(posts, Title, "Second post") == [second] by {
      assert Matching([third], Title, "Second post") == [];
      assert Matching([second, third], Title, "Second post") == [second];
    }
    assert Matching(posts, Title, "First post") == [first] by {
      assert Matching([third], Title, "First post") == [];
      assert Matching([second, third], Title, "First post") == [];
    }
    assert sorted[1..] == ["Second post", "First post"] && sorted[1..][1..] == ["First post"];
    assert Expand(["First post"], posts, Title) == [first];
    assert Expand(["Second post", "First post"], posts, Title) == [second, first];
    assert Expand(sorted, posts, Title) == [third, second, first];
  }

  /** A fresh process: create "Third", list by title descending, delete
      post 1. */
  method SeedScenario() {
    var store := new PostStore();
    var created := store.Create(Body(None, Some("Third"), Some("c")));
    assert created == Success(Post(3, "Third", "c"));
    var listed := store.Get(Some("title"), Some("desc"));
    SeedPlusThirdByTitleDesc();
    assert listed == Success([Post(3, "Third", "c"), Seed()[1], Seed()[0]]);
    var deleted := store.Delete(1);
    assert deleted == Success(1);
    assert store.posts == [Seed()[1], Post(3, "Third", "c")];
  }
}
