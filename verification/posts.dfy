/** The records the post store works on: posts, request bodies, query
    arguments and the error outcomes of the route handlers. */
module Posts {

  datatype Option<+T> = None | Some(value: T)

  datatype Result<+R, +E> = Success(value: R) | Failure(error: E)

  /** A stored post, the dictionary {"id", "title", "content"}. */
  datatype Post = Post(id: int, title: string, content: string)

  /** A JSON request body read as a partial post: each key may be absent.
      It is the body of a create and the patch of an update. */
  datatype Body = Body(id: Option<int>, title: Option<string>, content: Option<string>)

  /** The error outcomes; each is answered with {"error": Message()}. */
  datatype Error = TitleMissed | ContentMissed | SortParameterError | DirectionParameterError | NotFound
  {
    function Message(): string {
      match this
      case TitleMissed => "title was missed"
      case ContentMissed => "content was missed"
      case SortParameterError => "sort parameter error"
      case DirectionParameterError => "direction parameter error"
      case NotFound => "Not Found"
    }
  }

  /** Distinct error outcomes reach the client as distinct messages. */
  lemma MessagesDistinct(e1: Error, e2: Error)
    ensures e1 != e2 ==> e1.Message() != e2.Message()
  {
  }

  /** The post field that listing and search work on. */
  datatype Field = Title | Content {
    function Name(): string {
      match this
      case Title => "title"
      case Content => "content"
    }
  }

  function FieldOf(p: Post, f: Field): string {
    match f
    case Title => p.title
    case Content => p.content
  }

  /** Python's falsiness of an optional query argument: absent or empty. */
  predicate Blank(arg: Option<string>) {
    arg.None? || arg.value == ""
  }

  /** The posts the store holds when the process starts. */
  function Seed(): seq<Post> {
    [Post(1, "First post", "This is the first post."),
     Post(2, "Second post", "This is the second post.")]
  }

  /** No two posts share an id. The store does not enforce it (an update
      may write any id), but create and delete preserve it. */
  predicate UniqueIds(posts: seq<Post>) {
    forall i, j :: 0 <= i < j < |posts| ==> posts[i].id != posts[j].id
  }
}
