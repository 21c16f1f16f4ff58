/** The stored shape of a post with its embedded likes and comments, and
    the field constraints the document schema enforces when a post is saved. */
module PostSchema {
  import opened Base

  /** The fixed enumeration of post types. */
  datatype PostType = Recommendation | AskForHelp | LocalUpdate | EventAnnouncement

  const MaxContentLength := 280
  const MaxCommentLength := 200

  /** The wire name of each post type. */
  function TypeName(t: PostType): string
  {
    match t
    case Recommendation => "recommendation"
    case AskForHelp => "ask_for_help"
    case LocalUpdate => "local_update"
    case EventAnnouncement => "event_announcement"
  }

  /** Membership test of a request string in the enumeration. */
  function ParseType(s: string): (r: Option<PostType>)
    ensures r.Some? ==> TypeName(r.value) == s
    ensures r.None? ==> forall t :: TypeName(t) != s
  {
    if s == "recommendation" then Some(Recommendation)
    else if s == "ask_for_help" then Some(AskForHelp)
    else if s == "local_update" then Some(LocalUpdate)
    else if s == "event_announcement" then Some(EventAnnouncement)
    else None
  }

  /** Every type name is accepted back as that type. */
  lemma ParseTypeName(t: PostType)
    ensures ParseType(TypeName(t)) == Some(t)
  {
  }

  /** A like: who liked, and when. */
  datatype Like = Like(user: UserId, createdAt: Time)

  /** A comment: who wrote it, its text, and when. */
  datatype Comment = Comment(user: UserId, content: string, createdAt: Time)

  /** A post document. `kind` is the source's `type` field (a keyword here). */
  datatype Post = Post(
    id: PostId,
    author: UserId,
    content: string,
    kind: PostType,
    location: Option<string>,
    images: seq<Url>,
    likes: seq<Like>,
    comments: seq<Comment>,
    createdAt: Time,
    updatedAt: Time)

  /** Schema constraints on a comment: its text is required (non-empty) and
      at most 200 characters. */
  predicate CommentConforms(c: Comment)
  {
    0 < |c.content| <= MaxCommentLength
  }

  /** Schema constraints on a post: required content of at most 280
      characters, and conforming comments. The type is an enumeration member
      and the author reference is present by construction of `Post`; the
      schema bounds neither the likes nor the images. */
  predicate PostConforms(p: Post)
  {
    && 0 < |p.content| <= MaxContentLength
    && forall c :: c in p.comments ==> CommentConforms(c)
  }
}
