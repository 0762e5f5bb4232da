/** GET /api/posts/search: a case-insensitive substring filter on the title,
    or failing that on the content, or no filter at all. */
module Search {
  import opened Posts
  import opened Strings

  /** `needle.lower() in field.lower()` for post p. */
  predicate Selects(p: Post, f: Field, needle: string) {
    Contains(Lower(FieldOf(p, f)), Lower(needle))
  }

  /** The posts of a list comprehension `[post for post in posts if ...]`. */
  function FilterBy(posts: seq<Post>, f: Field, needle: string): seq<Post> {
    if posts == [] then []
    else if Selects(posts[0], f, needle) then [posts[0]] + FilterBy(posts[1..], f, needle)
    else FilterBy(posts[1..], f, needle)
  }

  /** The response of GET /api/posts/search with its `title` and `content`
      query arguments. */
  function SearchPosts(posts: seq<Post>, title: Option<string>, content: Option<string>): seq<Post> {
    if !Blank(title) then FilterBy(posts, Title, title.value)
    else if !Blank(content) then FilterBy(posts, Content, content.value)
    else posts
  }

  /** Whether the search keeps post p: a non-empty title decides, else a
      non-empty content decides, else every post is kept. */
  predicate Wanted(p: Post, title: Option<string>, content: Option<string>) {
    if !Blank(title) then Selects(p, Title, title.value)
    else if !Blank(content) then Selects(p, Content, content.value)
    else true
  }

  /** r is obtained from s by dropping elements, keeping the order of the
      rest. */
  predicate IsSubsequence(r: seq<Post>, s: seq<Post>) {
    if r == [] then true
    else if s == [] then false
    else if r[0] == s[0] then IsSubsequence(r[1..], s[1..])
    else IsSubsequence(r, s[1..])
  }

  lemma {:induction false} SubsequenceOfItself(s: seq<Post>)
    ensures IsSubsequence(s, s)
  {
    if s != [] {
      SubsequenceOfItself(s[1..]);
    }
  }

  lemma {:induction false} FilterIsSubsequence(posts: seq<Post>, f: Field, needle: string)
    ensures IsSubsequence(FilterBy(posts, f, needle), posts)
    ensures forall q :: q in FilterBy(posts, f, needle) ==> Selects(q, f, needle)
  {
    if posts != [] {
      FilterIsSubsequence(posts[1..], f, needle);
    }
  }

  lemma {:induction false} FilterCount(posts: seq<Post>, f: Field, needle: string, p: Post)
    ensures multiset(FilterBy(posts, f, needle))[p] == if Selects(p, f, needle) then multiset(posts)[p] else 0
  {
    if posts != [] {
      FilterCount(posts[1..], f, needle, p);
      assert posts == [posts[0]] + posts[1..];
    }
  }

  /** The search keeps exactly the wanted posts, each as often as it is
      stored, in store order. */
  lemma SearchIsOrderedFilter(posts: seq<Post>, title: Option<string>, content: Option<string>)
    ensures IsSubsequence(SearchPosts(posts, title, content), posts)
    ensures forall p :: multiset(SearchPosts(posts, title, content))[p] ==
                        if Wanted(p, title, content) then multiset(posts)[p] else 0
  {
    if !Blank(title) {
      FilterIsSubsequence(posts, Title, title.value);
      forall p ensures multiset(SearchPosts(posts, title, content))[p] ==
        if Wanted(p, title, content) then multiset(posts)[p] else 0
      {
        FilterCount(posts, Title, title.value, p);
      }
    } else if !Blank(content) {
      FilterIsSubsequence(posts, Content, content.value);
      forall p ensures multiset(SearchPosts(posts, title, content))[p] ==
        if Wanted(p, title, content) then multiset(posts)[p] else 0
      {
        FilterCount(posts, Content, content.value, p);
      }
    } else {
      SubsequenceOfItself(posts);
    }
  }

  /** An empty title argument filters nothing when no content argument is
      given: the whole store comes back. */
  lemma EmptyTitleListsAll(posts: seq<Post>)
    ensures SearchPosts(posts, Some(""), None) == posts
  {
  }

  lemma {:induction false} FilterIgnoresNeedleCase(posts: seq<Post>, f: Field, needle: string)
    ensures FilterBy(posts, f, Lower(needle)) == FilterBy(posts, f, needle)
  {
    LowerIdempotent(needle);
    if posts != [] {
      FilterIgnoresNeedleCase(posts[1..], f, needle);
    }
  }

  /** Upper and lower case in the title argument make no difference. */
  lemma SearchIgnoresTitleCase(posts: seq<Post>, title: string, content: Option<string>)
    ensures SearchPosts(posts, Some(Lower(title)), content) == SearchPosts(posts, Some(title), content)
  {
    FilterIgnoresNeedleCase(posts, Title, title);
  }

  /** A post whose title contains the title argument is found, whatever the
      case of either. */
  lemma {:induction false} TitleMatchIsFound(posts: seq<Post>, k: nat, needle: string, content: Option<string>)
    requires k < |posts| && needle != ""
    requires Contains(Lower(posts[k].title), Lower(needle))
    ensures posts[k] in SearchPosts(posts, Some(needle), content)
  {
    FilterCount(posts, Title, needle, posts[k]);
    assert posts[k] in multiset(posts);
  }
}
