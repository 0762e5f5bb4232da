# Masterblog API post store, modelled in Dafny

The Masterblog API keeps blog posts (`{id, title, content}`) in one
in-memory list, `POSTS`, and serves them over five HTTP routes: list
(optionally sorted by title or content, ascending or descending), create,
delete by id, update by id, and case-insensitive search by title or
content. This project models that list and the route handlers' logic on
it, with the web framework stripped away: request bodies and query
arguments are plain parameters, and each error answer is a value of the
`Error` datatype carrying the exact message the service sends.

Layout:

- `posts.dfy` (module `Posts`): the `Post` record, the partial `Body`
  used for create bodies and update patches, `Error` and its messages,
  `Field`, Python's falsiness of a query argument (`Blank`), the seed
  posts, and the `UniqueIds` property.
- `strings.dfy` (module `Strings`): Python's `<=` on `str`
  (lexicographic by code point) with its total-order lemmas, ASCII
  `lower()`, and the substring test `needle in hay`.
- `listing.dfy` (module `Listing`): the `sort`/`direction` check, the
  value sort, the sorted listing as the source builds it, and the lemmas
  about its order and multiplicities.
- `search.dfy` (module `Search`): the search filter and its lemmas.
- `store.dfy` (module `Store`): create validation, id assignment, the
  first-match lookup, `list.remove`, the shallow merge of an update, and the
  class `PostStore` whose `posts` field is the `POSTS` list. Its methods
  change that field the way the route handlers change the list.

Two behaviours of the code that a reader might not expect are kept as
written:

- The sorted listing is not a sort of the posts. The code sorts the list
  of field values and then emits, for each value, every post that has that
  value. A title shared by k posts therefore yields k² entries. The
  listing is a permutation of the store exactly when the chosen field's
  values are distinct (`Listing.ListingIsPermutationIffDistinct`). It is
  not a stable sort of the store in general. `Listing.SharedTitleIsListedTwice`
  shows the case of two posts with the same title.
- An update copies every key of the patch, including `id`, so an update
  can give two posts the same id (`Store.PatchWithIdCanDuplicate`). Ids
  are unique after create and delete, and after updates whose patch has no
  `id`, when they were unique before.

## Model

| member | source | states |
|---|---|---|
| `Store.InvalidPostData` | backend/backend_app.py:13-19 | A body without `title` gives "title was missed" even when `content` is missing too; a body with `title` but without `content` gives "content was missed"; a body with both passes; these three cases are exclusive and exhaustive. |
| `Store.MaxId` | backend/backend_app.py:40 | The result bounds every stored id and is the id of some stored post. |
| `Store.NextId` | backend/backend_app.py:39-43 | The new id exceeds every stored id; it is 1 for an empty store and otherwise one more than an id that is stored. |
| `Store.FirstIndex` | backend/backend_app.py:22-26 | None exactly when no post has the id; otherwise the index of a post with the id that no earlier post shares. |
| `Store.PostStore.FindPostById` | backend/backend_app.py:22-26 | The scan returns nothing exactly when no stored post has the id; otherwise it returns the stored post at the first index with that id. |
| `Store.RemoveFirstFound` | backend/backend_app.py:89-92 | `list.remove` of the post the lookup found removes exactly that index: no earlier post equals it. |
| `Store.MergeFields` | backend/backend_app.py:103 | Each key in the patch, `id` included, overwrites that field; each absent key keeps the stored value. |
| `Store.MergeEmptyAndIdempotent` | backend/backend_app.py:103 | An empty patch leaves the post as it is; applying the same patch twice equals applying it once. |
| `Store.AppendNextIdKeepsUnique` | backend/backend_app.py:39-46 | Appending a post carrying the next id keeps ids unique. |
| `Store.RemoveAtKeepsUnique` | backend/backend_app.py:92 | Removing one post keeps ids unique. |
| `Store.PatchWithoutIdKeepsUnique` | backend/backend_app.py:99-103 | Merging a patch that has no `id` into one post keeps ids unique. |
| `Store.PatchWithIdCanDuplicate` | backend/backend_app.py:103 | On the seed store, patching post 2 with `{"id": 1}` leaves two posts with id 1. |
| `Store.PostStore.constructor` | backend/backend_app.py:7-10 | The store starts with the two seed posts, ids 1 and 2. |
| `Store.PostStore.Create` | backend/backend_app.py:32-49 | An invalid body answers with the validation error and leaves the store unchanged. A valid body is stored with the next id, whatever id the client sent, and is appended at the end: the store grows by one and the earlier posts are unchanged. Unique ids stay unique. |
| `Store.PostStore.Delete` | backend/backend_app.py:86-93 | An unknown id answers Not Found and leaves the store identical. Otherwise the first post with the id is removed, the others keep their relative order, the answer carries the id, and unique ids stay unique. |
| `Store.PostStore.Update` | backend/backend_app.py:96-104 | An unknown id answers Not Found and leaves the store unchanged. Otherwise only the first post with the id changes, to the patch merged into it; the length stays the same and the answer is the merged post. |
| `Store.PostStore.Get` | backend/backend_app.py:51-83 | A listing leaves the store unchanged; with no `sort` and no `direction` it is the whole store in insertion order; every listed post is a stored post. |
| `Store.PostStore.Find` | backend/backend_app.py:107-119 | A search leaves the store unchanged and answers a subsequence of the store in store order. |
| `Posts.MessagesDistinct` | backend/backend_app.py:16-91 | The five error outcomes (lines 16, 18, 61, 63 and 91) reach the client as distinct messages. |
| `Listing.ParseListQuery` | backend/backend_app.py:52-63 | Both arguments absent or empty: plain listing. Otherwise a `sort` other than title/content gives "sort parameter error", checked first. Otherwise a `direction` other than asc/desc gives "direction parameter error". A sorted listing is chosen only by exactly "title"/"content" and "asc"/"desc". |
| `Listing.OnlyOneArgumentIsAnError` | backend/backend_app.py:55-63 | Supplying only one of `sort` and `direction` is an error. |
| `Listing.GetPostsPlain` | backend/backend_app.py:55-57 | Without either argument the answer is the store itself; with only one it is an error. |
| `Strings.StrLeTotal` | backend/backend_app.py:69 | Any two strings are comparable under Python's `<=`. |
| `Strings.StrLeTransitive` | backend/backend_app.py:69 | Python's `<=` on strings is transitive. |
| `Strings.StrLeAntisymmetric` | backend/backend_app.py:69 | Strings that are each `<=` the other are equal. |
| `Listing.SortValuesCorrect` | backend/backend_app.py:68-72 | The sorted values are in ascending (or, reversed, descending) order and are a permutation of the field values. |
| `Listing.SortedPermutationUnique` | backend/backend_app.py:69-81 | Two ordered permutations of the same strings are equal, so any sorting algorithm yields the modelled list. |
| `Listing.ListingOrdered` | backend/backend_app.py:66-83 | The chosen field's values in the answer are ascending for `asc` and descending for `desc`. |
| `Listing.ListingMultiplicity` | backend/backend_app.py:67-82 | A post appears in the answer as often as it is stored, times the number of stored posts sharing its value of the field. |
| `Listing.ListingSubset` | backend/backend_app.py:70 | Every listed post is a stored post. |
| `Listing.DistinctListingIsPermutation` | backend/backend_app.py:66-83 | With distinct values of the field the answer is a permutation of the store. |
| `Listing.StoredOnceOrAbsent` | backend/backend_app.py:66-83 | With distinct field values, a stored post's value matches exactly one post, so the listing multiplicity factor is one. |
| `Listing.SharedValueBreaksPermutation` | backend/backend_app.py:67-73 | When two stored posts share the value, the first of them is listed more often than it is stored. |
| `Listing.ListingIsPermutationIffDistinct` | backend/backend_app.py:66-83 | The answer is a permutation of the store if and only if the chosen field's values are distinct. |
| `Listing.SharedTitleIsListedTwice` | backend/backend_app.py:67-70 | Two posts titled alike, sorted by title, come back as the pair twice over. |
| `Store.SeedPlusThirdByTitleDesc` | backend/backend_app.py:66-74 | After "Third" joins the seed posts, listing by title descending answers Third, Second post, First post. |
| `Search.FilterIsSubsequence` | backend/backend_app.py:113-116 | The filtered list is a subsequence of the store, and each post in it matches the needle case-insensitively. |
| `Search.SearchIsOrderedFilter` | backend/backend_app.py:110-119 | The answer is a subsequence of the store that keeps each stored post, as often as it is stored, exactly when it is wanted: by a non-empty title a case-insensitive title match decides, else by a non-empty content a content match, else every post is kept. |
| `Search.EmptyTitleListsAll` | backend/backend_app.py:112-119 | An empty title argument with no content argument answers the whole store. |
| `Search.SearchIgnoresTitleCase` | backend/backend_app.py:113 | Lower-casing the title argument does not change the answer. |
| `Search.TitleMatchIsFound` | backend/backend_app.py:112-114 | A post whose lowercased title contains the lowercased non-empty needle is in the answer. |
| `Strings.EmptyIsInEverything` | backend/backend_app.py:113 | The empty needle is contained in every string. |
| `Store.RemoveFirst` | backend/backend_app.py:92 | `list.remove(x)` for an x the list holds, the only call the handler makes: the list becomes one shorter. Where Python raises ValueError for an absent x, the function returns the list unchanged. |
| `Store.RemoveFirstCount` | backend/backend_app.py:92 | `list.remove(x)` of a held x takes away exactly one copy of x and keeps every other element's count. For an absent x, where Python raises ValueError, the list is unchanged. |
| `Posts.Blank` | backend/backend_app.py:55 | Absent or the empty string, which is what Python treats as false for a `request.args.get` result (`not sort and not direction` at line 55, `if title:` at line 112, `elif content:` at line 115); used by `Listing.ParseListQuery` and `Search.SearchIsOrderedFilter`. |
| `Search.Selects` | backend/backend_app.py:113-116 | `needle.lower() in field.lower()` for one post and one field; `Search.FilterBy` keeps exactly the posts it selects (`Search.FilterIsSubsequence`, `Search.FilterCount`). |
| `Store.RemoveFirstAt` | backend/backend_app.py:92 | `list.remove(x)` drops the element at i when no earlier element equals it, keeping the order of the rest. |
| `Store.Merge` | backend/backend_app.py:103 | `post.update(patch)` as a value; its contract is stated by `Store.MergeFields` and `Store.MergeEmptyAndIdempotent`. |
| `Listing.Values` | backend/backend_app.py:67 | The field values list has one entry per stored post, the post's value of the chosen field, in store order (the comprehensions at lines 67 and 76). |
| `Listing.SortValues` | backend/backend_app.py:69 | `list.sort()` and `list.sort(reverse=True)` of the values (lines 69, 72, 78, 81); stated by `Listing.SortValuesCorrect` and `Listing.SortedPermutationUnique`. |
| `Listing.Matching` | backend/backend_app.py:70 | The inner filter of the comprehensions at lines 70, 73, 79 and 82; stated by `Listing.MatchingFields` and `Listing.MatchingCount`. |
| `Listing.Expand` | backend/backend_app.py:70 | The outer loop of those comprehensions over the sorted values; stated by `Listing.ExpandOrdered`, `Listing.ExpandCount` and `Listing.ExpandFromStore`. |
| `Listing.SortedListing` | backend/backend_app.py:66-83 | The sorted listing; stated by `Listing.ListingOrdered`, `Listing.ListingMultiplicity`, `Listing.ListingSubset` and `Listing.ListingIsPermutationIffDistinct`. |
| `Listing.GetPosts` | backend/backend_app.py:51-83 | The GET /api/posts answer; stated by `Listing.ParseListQuery`, `Listing.GetPostsPlain` and the sorted-listing lemmas. |
| `Listing.MatchingFields` | backend/backend_app.py:70 | Every post the inner filter keeps carries the value and is a stored post. |
| `Listing.MatchingCount` | backend/backend_app.py:70 | The inner filter keeps each post with the value as often as it is stored, and no other post. |
| `Listing.ExpandOrdered` | backend/backend_app.py:70 | Over ordered values, the emitted posts are ordered by the field. |
| `Listing.ExpandCount` | backend/backend_app.py:70 | A post is emitted its stored count times the number of occurrences of its value among the values. |
| `Listing.ExpandFromStore` | backend/backend_app.py:70 | Every emitted post is a stored post. |
| `Search.SearchPosts` | backend/backend_app.py:110-119 | The search answer; stated by `Search.SearchIsOrderedFilter`, `Search.EmptyTitleListsAll`, `Search.SearchIgnoresTitleCase` and `Search.TitleMatchIsFound`. |
| `Search.FilterBy` | backend/backend_app.py:113-116 | The comprehensions at lines 113 and 116; stated by `Search.FilterIsSubsequence` and `Search.FilterCount`. |
| `Search.FilterCount` | backend/backend_app.py:113-116 | The filter keeps each matching post as often as it is stored, and no other post. |
| `Strings.StrLe` | backend/backend_app.py:69 | Python's `<=` on str; stated by `Strings.StrLeReflexive`, `Strings.StrLeTotal`, `Strings.StrLeTransitive` and `Strings.StrLeAntisymmetric`. |
| `Strings.StrLeReflexive` | backend/backend_app.py:69 | Every string is `<=` itself. |
| `Strings.Lower` | backend/backend_app.py:113 | `str.lower()` on ASCII letters; stated by `Strings.LowerIdempotent` and used by `Search.SearchIgnoresTitleCase`. |
| `Strings.LowerIdempotent` | backend/backend_app.py:113 | Lower-casing twice is lower-casing once. |
| `Strings.Contains` | backend/backend_app.py:113 | Python's `needle in hay`; stated by `Strings.EmptyIsInEverything` and used by `Search.TitleMatchIsFound`. |

## Left out

- Store.RemoveFirst: does not model the ValueError that `list.remove`
  raises for an absent element. The delete handler only removes the post
  its lookup found (backend/backend_app.py:89-92), so that path is never
  taken; the function returns the list unchanged there.
- The web framework: routing, CORS, JSON encoding and decoding, HTTP
  status codes and starting the server. Outcomes are `Result` values; the
  delete answer carries the id instead of the formatted message.
- Python's dynamic typing: a body that is not a JSON object, field values
  that are not strings, ids that are not integers, the `int()` conversion
  of the new id, and keys other than `id`, `title` and `content` (which the
  source would store and echo). A body is three optional fields of fixed
  types.
- A missing or non-JSON body on create or update, which makes the source
  fail with a framework error.
- Unicode case folding: `lower()` is modelled on ASCII letters only.
- `list.sort()` of the temporary value list is modelled by the pure
  function `Listing.SortValues`, not by an in-place sort: the list is local
  to the handler, so the update in place is not observable.
- The update writes through the dictionary that the lookup returned; the
  model writes the merged post at the index the lookup returned instead of
  modelling the alias.
- Concurrent requests: the source has no locking and the model is
  sequential.
