/** GET /api/posts: the query-argument check and the sorted listing.

    The sorted listing does not sort the posts. It collects the chosen
    field's value of every post, sorts those values, and then, for each
    value in turn, emits every post that carries it. A value held by k
    posts is emitted k times, each time with all k posts, so the result is
    a permutation of the store exactly when the values are distinct. */
module Listing {
  import opened Posts
  import opened Strings

  datatype Direction = Asc | Desc {
    function Name(): string {
      match this
      case Asc => "asc"
      case Desc => "desc"
    }
  }

  /** What a GET /api/posts asks for. */
  datatype ListQuery = All | SortedBy(field: Field, dir: Direction)

  /** The check of the `sort` and `direction` query arguments. */
  function ParseListQuery(sort: Option<string>, direction: Option<string>): (r: Result<ListQuery, Error>)
    ensures r == Success(All) <==> Blank(sort) && Blank(direction)
    ensures r == Failure(SortParameterError) <==>
      !(Blank(sort) && Blank(direction)) && sort != Some("title") && sort != Some("content")
    ensures r == Failure(DirectionParameterError) <==>
      !(Blank(sort) && Blank(direction)) && (sort == Some("title") || sort == Some("content")) &&
      direction != Some("asc") && direction != Some("desc")
    ensures r.Success? && r.value.SortedBy? ==>
      sort == Some(r.value.field.Name()) && direction == Some(r.value.dir.Name())
    ensures r.Failure? ==> r.error == SortParameterError || r.error == DirectionParameterError
  {
    if Blank(sort) && Blank(direction) then Success(All)
    else if sort != Some("title") && sort != Some("content") then Failure(SortParameterError)
    else if direction != Some("asc") && direction != Some("desc") then Failure(DirectionParameterError)
    else
      Success(SortedBy(if sort == Some("title") then Title else Content,
                       if direction == Some("asc") then Asc else Desc))
  }

  /** Supplying exactly one of the two arguments is an error. */
  lemma OnlyOneArgumentIsAnError(sort: Option<string>, direction: Option<string>)
    requires Blank(sort) != Blank(direction)
    ensures ParseListQuery(sort, direction).Failure?
  {
  }

  /** `a` comes no later than `b` in the order the direction asks for. */
  predicate Before(a: string, b: string, dir: Direction) {
    match dir
    case Asc => StrLe(a, b)
    case Desc => StrLe(b, a)
  }

  lemma BeforeReflexive(a: string, dir: Direction)
    ensures Before(a, a, dir)
  {
    StrLeReflexive(a);
  }

  lemma BeforeTotal(a: string, b: string, dir: Direction)
    ensures Before(a, b, dir) || Before(b, a, dir)
  {
    StrLeTotal(a, b);
  }

  lemma BeforeTransitive(a: string, b: string, c: string, dir: Direction)
    requires Before(a, b, dir) && Before(b, c, dir)
    ensures Before(a, c, dir)
  {
    match dir
    case Asc => StrLeTransitive(a, b, c);
    case Desc => StrLeTransitive(c, b, a);
  }

  lemma BeforeAntisymmetric(a: string, b: string, dir: Direction)
    requires Before(a, b, dir) && Before(b, a, dir)
    ensures a == b
  {
    StrLeAntisymmetric(a, b);
  }

  predicate Sorted(s: seq<string>, dir: Direction) {
    forall i, j :: 0 <= i < j < |s| ==> Before(s[i], s[j], dir)
  }

  /** The chosen field's value of every post, in store order. */
  function Values(posts: seq<Post>, f: Field): (r: seq<string>)
    ensures |r| == |posts|
    ensures forall i :: 0 <= i < |posts| ==> r[i] == FieldOf(posts[i], f)
  {
    if posts == [] then [] else [FieldOf(posts[0], f)] + Values(posts[1..], f)
  }

  function Insert(x: string, s: seq<string>, dir: Direction): seq<string> {
    if s == [] then [x]
    else if Before(x, s[0], dir) then [x] + s
    else [s[0]] + Insert(x, s[1..], dir)
  }

  /** The values list after `list.sort()` (Asc) or `list.sort(reverse=True)`
      (Desc). Any sort gives this list: see SortedPermutationUnique. */
  function SortValues(s: seq<string>, dir: Direction): seq<string> {
    if s == [] then [] else Insert(s[0], SortValues(s[1..], dir), dir)
  }

  lemma {:induction false} InsertMultiset(x: string, s: seq<string>, dir: Direction)
    ensures multiset(Insert(x, s, dir)) == multiset(s) + multiset{x}
  {
    if s != [] && !Before(x, s[0], dir) {
      InsertMultiset(x, s[1..], dir);
      assert s == [s[0]] + s[1..];
    }
  }

  lemma ConsSorted(y: string, t: seq<string>, dir: Direction)
    requires Sorted(t, dir)
    requires forall z :: z in t ==> Before(y, z, dir)
    ensures Sorted([y] + t, dir)
  {
    var r := [y] + t;
    forall i, j | 0 <= i < j < |r| ensures Before(r[i], r[j], dir) {
      assert r[j] == t[j - 1] && t[j - 1] in t;
      if i > 0 {
        assert r[i] == t[i - 1];
      }
    }
  }

  lemma {:induction false} InsertSorted(x: string, s: seq<string>, dir: Direction)
    requires Sorted(s, dir)
    ensures Sorted(Insert(x, s, dir), dir)
  {
    if s == [] {
    } else if Before(x, s[0], dir) {
      forall z | z in s ensures Before(x, z, dir) {
        HeadIsLeast(s, z, dir);
        BeforeTransitive(x, s[0], z, dir);
      }
      ConsSorted(x, s, dir);
    } else {
      var t := Insert(x, s[1..], dir);
      BeforeTotal(x, s[0], dir);
      SortedTail(s, dir);
      InsertSorted(x, s[1..], dir);
      InsertMultiset(x, s[1..], dir);
      forall z | z in t ensures Before(s[0], z, dir) {
        assert z in multiset(t);
        if z != x {
          assert z in s[1..];
          HeadIsLeast(s, z, dir);
        }
      }
      ConsSorted(s[0], t, dir);
    }
  }

  /** The sorted values are in order and are the same values. */
  lemma {:induction false} SortValuesCorrect(s: seq<string>, dir: Direction)
    ensures Sorted(SortValues(s, dir), dir)
    ensures multiset(SortValues(s, dir)) == multiset(s)
  {
    if s != [] {
      SortValuesCorrect(s[1..], dir);
      InsertSorted(s[0], SortValues(s[1..], dir), dir);
      InsertMultiset(s[0], SortValues(s[1..], dir), dir);
      assert s == [s[0]] + s[1..];
    }
  }

  lemma HeadIsLeast(s: seq<string>, x: string, dir: Direction)
    requires Sorted(s, dir) && x in s
    ensures Before(s[0], x, dir)
  {
    var k :| 0 <= k < |s| && s[k] == x;
    if k == 0 {
      BeforeReflexive(x, dir);
    }
  }

  lemma SortedTail(s: seq<string>, dir: Direction)
    requires Sorted(s, dir) && s != []
    ensures Sorted(s[1..], dir)
  {
    forall i, j | 0 <= i < j < |s[1..]| ensures Before(s[1..][i], s[1..][j], dir) {
      assert s[1..][i] == s[i + 1] && s[1..][j] == s[j + 1];
    }
  }

  lemma TailMultiset(s: seq<string>)
    requires s != []
    ensures multiset(s[1..]) == multiset(s) - multiset{s[0]}
  {
    assert s == [s[0]] + s[1..];
  }

  lemma SameHead(s: seq<string>, t: seq<string>, dir: Direction)
    requires Sorted(s, dir) && Sorted(t, dir)
    requires multiset(s) == multiset(t) && s != []
    ensures t != [] && s[0] == t[0]
  {
    assert s[0] in multiset(s);
    assert t != [] && t[0] in multiset(t);
    HeadIsLeast(s, t[0], dir);
    HeadIsLeast(t, s[0], dir);
    BeforeAntisymmetric(s[0], t[0], dir);
  }

  /** There is only one ordered arrangement of a multiset of strings, so the
      sorting algorithm the runtime uses does not matter. */
  lemma {:induction false} SortedPermutationUnique(s: seq<string>, t: seq<string>, dir: Direction)
    requires Sorted(s, dir) && Sorted(t, dir)
    requires multiset(s) == multiset(t)
    ensures s == t
  {
    if s != [] {
      SameHead(s, t, dir);
      SortedTail(s, dir);
      SortedTail(t, dir);
      TailMultiset(s);
      TailMultiset(t);
      SortedPermutationUnique(s[1..], t[1..], dir);
      assert s == [s[0]] + s[1..] && t == [t[0]] + t[1..];
    }
  }

  /** The posts whose chosen field equals v, in store order. */
  function Matching(posts: seq<Post>, f: Field, v: string): seq<Post> {
    if posts == [] then []
    else if FieldOf(posts[0], f) == v then [posts[0]] + Matching(posts[1..], f, v)
    else Matching(posts[1..], f, v)
  }

  /** For each value in turn, every post carrying it. */
  function Expand(vals: seq<string>, posts: seq<Post>, f: Field): seq<Post> {
    if vals == [] then [] else Matching(posts, f, vals[0]) + Expand(vals[1..], posts, f)
  }

  /** The response of GET /api/posts?sort=f&direction=dir. */
  function SortedListing(posts: seq<Post>, f: Field, dir: Direction): seq<Post> {
    Expand(SortValues(Values(posts, f), dir), posts, f)
  }

  /** The response of GET /api/posts with its query arguments. */
  function GetPosts(posts: seq<Post>, sort: Option<string>, direction: Option<string>): Result<seq<Post>, Error> {
    match ParseListQuery(sort, direction)
    case Failure(e) => Failure(e)
    case Success(All) => Success(posts)
    case Success(SortedBy(f, dir)) => Success(SortedListing(posts, f, dir))
  }

  /** Without sort and direction the whole store comes back in insertion
      order; with only one of them the request fails. */
  lemma GetPostsPlain(posts: seq<Post>, sort: Option<string>, direction: Option<string>)
    ensures Blank(sort) && Blank(direction) ==> GetPosts(posts, sort, direction) == Success(posts)
    ensures Blank(sort) != Blank(direction) ==> GetPosts(posts, sort, direction).Failure?
  {
  }

  lemma {:induction false} MatchingFields(posts: seq<Post>, f: Field, v: string)
    ensures forall q :: q in Matching(posts, f, v) ==> FieldOf(q, f) == v && q in posts
  {
    if posts != [] {
      MatchingFields(posts[1..], f, v);
    }
  }

  lemma {:induction false} ExpandFields(vals: seq<string>, posts: seq<Post>, f: Field)
    ensures forall q :: q in Expand(vals, posts, f) ==> FieldOf(q, f) in vals
  {
    if vals != [] {
      MatchingFields(posts, f, vals[0]);
      ExpandFields(vals[1..], posts, f);
    }
  }

  /** The posts are in the direction's order of their field f. */
  predicate OrderedBy(r: seq<Post>, f: Field, dir: Direction) {
    forall i, j :: 0 <= i < j < |r| ==> Before(FieldOf(r[i], f), FieldOf(r[j], f), dir)
  }

  lemma {:induction false} ExpandOrdered(vals: seq<string>, posts: seq<Post>, f: Field, dir: Direction)
    requires Sorted(vals, dir)
    ensures OrderedBy(Expand(vals, posts, f), f, dir)
  {
    if vals != [] {
      var m := Matching(posts, f, vals[0]);
      var e := Expand(vals[1..], posts, f);
      assert Sorted(vals[1..], dir) by {
        forall i, j | 0 <= i < j < |vals[1..]| ensures Before(vals[1..][i], vals[1..][j], dir) {
          assert vals[1..][i] == vals[i + 1] && vals[1..][j] == vals[j + 1];
        }
      }
      ExpandOrdered(vals[1..], posts, f, dir);
      MatchingFields(posts, f, vals[0]);
      ExpandFields(vals[1..], posts, f);
      var r := m + e;
      forall i, j | 0 <= i < j < |r| ensures Before(FieldOf(r[i], f), FieldOf(r[j], f), dir) {
        if j < |m| {
          assert r[i] == m[i] && r[j] == m[j];
          assert m[i] in m && m[j] in m;
          assert FieldOf(r[i], f) == vals[0] && FieldOf(r[j], f) == vals[0];
          BeforeReflexive(vals[0], dir);
          assert Before(FieldOf(r[i], f), FieldOf(r[j], f), dir);
        } else if i < |m| {
          assert r[i] == m[i] && m[i] in m;
          assert r[j] == e[j - |m|] && e[j - |m|] in e;
          var k :| 0 <= k < |vals[1..]| && vals[1..][k] == FieldOf(r[j], f);
          assert vals[k + 1] == FieldOf(r[j], f);
          assert Before(vals[0], vals[k + 1], dir);
          assert Before(FieldOf(r[i], f), FieldOf(r[j], f), dir);
        } else {
          assert r[i] == e[i - |m|] && r[j] == e[j - |m|];
          assert Before(FieldOf(e[i - |m|], f), FieldOf(e[j - |m|], f), dir);
        }
      }
    }
  }

  lemma {:induction false} ExpandFromStore(vals: seq<string>, posts: seq<Post>, f: Field)
    ensures forall q :: q in Expand(vals, posts, f) ==> q in posts
  {
    if vals != [] {
      MatchingFields(posts, f, vals[0]);
      ExpandFromStore(vals[1..], posts, f);
    }
  }

  /** Every listed post is a stored post. */
  lemma ListingSubset(posts: seq<Post>, f: Field, dir: Direction)
    ensures forall q :: q in SortedListing(posts, f, dir) ==> q in posts
  {
    ExpandFromStore(SortValues(Values(posts, f), dir), posts, f);
  }

  /** The listing is ordered by the chosen field in the chosen direction. */
  lemma ListingOrdered(posts: seq<Post>, f: Field, dir: Direction)
    ensures OrderedBy(SortedListing(posts, f, dir), f, dir)
  {
    SortValuesCorrect(Values(posts, f), dir);
    ExpandOrdered(SortValues(Values(posts, f), dir), posts, f, dir);
  }

  lemma {:induction false} MatchingCount(posts: seq<Post>, f: Field, v: string, p: Post)
    ensures multiset(Matching(posts, f, v))[p] == if FieldOf(p, f) == v then multiset(posts)[p] else 0
  {
    if posts != [] {
      MatchingCount(posts[1..], f, v, p);
      assert posts == [posts[0]] + posts[1..];
    }
  }

  lemma {:induction false} ExpandCount(vals: seq<string>, posts: seq<Post>, f: Field, p: Post)
    ensures multiset(Expand(vals, posts, f))[p] == multiset(posts)[p] * multiset(vals)[FieldOf(p, f)]
  {
    if vals != [] {
      var x := FieldOf(p, f);
      var head := Matching(posts, f, vals[0]);
      var tail := Expand(vals[1..], posts, f);
      ExpandCount(vals[1..], posts, f, p);
      MatchingCount(posts, f, vals[0], p);
      assert multiset(head + tail)[p] == multiset(head)[p] + multiset(tail)[p];
      HeadCount(vals, x);
      var m, c := multiset(posts)[p], multiset(vals[1..])[x];
      if x == vals[0] {
        assert multiset(vals)[x] == c + 1;
        MulSucc(m, c);
      } else {
        assert multiset(vals)[x] == c;
      }
    }
  }

  lemma HeadCount(vals: seq<string>, x: string)
    requires vals != []
    ensures multiset(vals)[x] == (if vals[0] == x then 1 else 0) + multiset(vals[1..])[x]
  {
    assert vals == [vals[0]] + vals[1..];
  }

  lemma MulSucc(m: int, c: int)
    ensures m * (c + 1) == m + m * c
  {
  }

  lemma {:induction false} ValuesCount(posts: seq<Post>, f: Field, v: string)
    ensures multiset(Values(posts, f))[v] == |Matching(posts, f, v)|
  {
    if posts != [] {
      ValuesCount(posts[1..], f, v);
      assert Values(posts, f) == [FieldOf(posts[0], f)] + Values(posts[1..], f);
    }
  }

  /** Each post is emitted as many times as it is stored, times the number
      of posts sharing its value of the chosen field. */
  lemma ListingMultiplicity(posts: seq<Post>, f: Field, dir: Direction, p: Post)
    ensures multiset(SortedListing(posts, f, dir))[p] == multiset(posts)[p] * |Matching(posts, f, FieldOf(p, f))|
  {
    SortValuesCorrect(Values(posts, f), dir);
    ExpandCount(SortValues(Values(posts, f), dir), posts, f, p);
    ValuesCount(posts, f, FieldOf(p, f));
  }

  /** No two stored posts share their value of the field. */
  predicate DistinctValues(posts: seq<Post>, f: Field) {
    forall i, j :: 0 <= i < j < |posts| ==> FieldOf(posts[i], f) != FieldOf(posts[j], f)
  }

  lemma {:induction false} NoneMatch(posts: seq<Post>, f: Field, v: string)
    requires forall k :: 0 <= k < |posts| ==> FieldOf(posts[k], f) != v
    ensures Matching(posts, f, v) == []
  {
    if posts != [] {
      NoneMatch(posts[1..], f, v);
    }
  }

  lemma {:induction false} SomeMatch(posts: seq<Post>, f: Field, k: nat)
    requires k < |posts|
    ensures |Matching(posts, f, FieldOf(posts[k], f))| >= 1
  {
    if k > 0 {
      SomeMatch(posts[1..], f, k - 1);
    }
  }

  lemma {:induction false} DistinctMatchesOnce(posts: seq<Post>, f: Field, k: nat)
    requires DistinctValues(posts, f) && k < |posts|
    ensures |Matching(posts, f, FieldOf(posts[k], f))| == 1
  {
    var v := FieldOf(posts[k], f);
    if k == 0 {
      NoneMatch(posts[1..], f, v);
    } else {
      assert DistinctValues(posts[1..], f);
      DistinctMatchesOnce(posts[1..], f, k - 1);
    }
  }

  lemma {:induction false} SharedValueMatchesTwice(posts: seq<Post>, f: Field, i: nat, j: nat)
    requires i < j < |posts| && FieldOf(posts[i], f) == FieldOf(posts[j], f)
    ensures |Matching(posts, f, FieldOf(posts[i], f))| >= 2
  {
    if i == 0 {
      SomeMatch(posts[1..], f, j - 1);
    } else {
      SharedValueMatchesTwice(posts[1..], f, i - 1, j - 1);
    }
  }

  lemma DistinctListingIsPermutation(posts: seq<Post>, f: Field, dir: Direction)
    requires DistinctValues(posts, f)
    ensures multiset(SortedListing(posts, f, dir)) == multiset(posts)
  {
    var r := SortedListing(posts, f, dir);
    forall p ensures multiset(r)[p] == multiset(posts)[p] {
      DistinctListedAsStored(posts, f, dir, p);
    }
  }

  lemma DistinctListedAsStored(posts: seq<Post>, f: Field, dir: Direction, p: Post)
    requires DistinctValues(posts, f)
    ensures multiset(SortedListing(posts, f, dir))[p] == multiset(posts)[p]
  {
    ListingMultiplicity(posts, f, dir, p);
    StoredOnceOrAbsent(posts, f, p);
  }

  /** With distinct values, a post is absent or its value matches once. */
  lemma StoredOnceOrAbsent(posts: seq<Post>, f: Field, p: Post)
    requires DistinctValues(posts, f)
    ensures multiset(posts)[p] * |Matching(posts, f, FieldOf(p, f))| == multiset(posts)[p]
  {
    if p in posts {
      var k :| 0 <= k < |posts| && posts[k] == p;
      DistinctMatchesOnce(posts, f, k);
    }
  }

  lemma SharedValueBreaksPermutation(posts: seq<Post>, f: Field, dir: Direction, i: nat, j: nat)
    requires i < j < |posts| && FieldOf(posts[i], f) == FieldOf(posts[j], f)
    ensures multiset(SortedListing(posts, f, dir))[posts[i]] > multiset(posts)[posts[i]]
  {
    var p := posts[i];
    SharedValueMatchesTwice(posts, f, i, j);
    ListingMultiplicity(posts, f, dir, p);
    var m, c := multiset(posts)[p], |Matching(posts, f, FieldOf(p, f))|;
    assert m >= 1;
    MulAtLeastTwice(m, c);
  }

  lemma MulAtLeastTwice(m: int, c: int)
    requires m >= 1 && c >= 2
    ensures m * c > m
  {
    assert m * c == m + m + m * (c - 2);
  }

  /** The sorted listing is a permutation of the store exactly when the
      chosen field's values are distinct. */
  lemma ListingIsPermutationIffDistinct(posts: seq<Post>, f: Field, dir: Direction)
    ensures multiset(SortedListing(posts, f, dir)) == multiset(posts) <==> DistinctValues(posts, f)
  {
    if DistinctValues(posts, f) {
      DistinctListingIsPermutation(posts, f, dir);
    } else {
      var i, j :| 0 <= i < j < |posts| && FieldOf(posts[i], f) == FieldOf(posts[j], f);
      SharedValueBreaksPermutation(posts, f, dir, i, j);
    }
  }

  /** Two posts with the same title: sorting by title emits the pair twice. */
  lemma SharedTitleIsListedTwice()
    ensures var posts := [Post(1, "A", "x"), Post(2, "A", "y")];
      SortedListing(posts, Title, Asc) == posts + posts
  {
    var posts := [Post(1, "A", "x"), Post(2, "A", "y")];
    assert Values(posts, Title) == ["A", "A"];
    StrLeReflexive("A");
    assert SortValues(["A", "A"], Asc) == ["A", "A"];
  }
}
