/** The stored documents the core reads and the shapes it sends back: a photo
    with its embedded comments and counters, one row of the reaction
    collection, and the client-facing photo and comment with `myReaction`
    and defaulted counters attached. */
module Documents {
  import opened Wrappers
  import opened Js

  /** What a reaction is about. */
  datatype TargetType = Photo | Comment

  /** A comment embedded in a photo document; `user` is the populated author
      when the query populated it, `userId` the raw reference. Counters are
      `None` when the stored document lacks the field. */
  datatype CommentDoc = CommentDoc(
    id: string,
    comment: JsValue,
    dateTime: JsValue,
    user: JsValue,
    userId: JsValue,
    likeCount: Option<int>,
    dislikeCount: Option<int>)

  /** A photo document as the store returns it. `others` holds every field the
      presenter copies through untouched (description, owner, size, ...). */
  datatype PhotoDoc = PhotoDoc(
    id: string,
    imageUrl: Option<string>,
    dateTime: JsValue,
    likeCount: Option<int>,
    dislikeCount: Option<int>,
    comments: Option<seq<CommentDoc>>,
    others: map<string, JsValue>)

  /** One row of the reaction collection. */
  datatype ReactionRow = ReactionRow(user: string, targetType: TargetType, targetId: string, value: int)

  /** A comment as sent to the client. */
  datatype ShapedComment = ShapedComment(
    id: string,
    comment: JsValue,
    dateTime: JsValue,
    user: JsValue,
    likeCount: int,
    dislikeCount: int,
    myReaction: int)

  /** A photo as sent to the client: every field of `doc` (the object spread),
      with the optimized URL, counters, `myReaction` and comments replaced. */
  datatype ShapedPhoto = ShapedPhoto(
    doc: PhotoDoc,
    imageUrlOptimized: Option<string>,
    likeCount: int,
    dislikeCount: int,
    myReaction: int,
    comments: seq<ShapedComment>)

  /** `count || 0` on a stored counter. */
  function CountOrZero(count: Option<int>): int {
    match count
    case Some(n) => if n != 0 then n else 0
    case None => 0
  }

  /** `reactions.get(key) || 0` on a map of reaction values. */
  function ReactionIn(reactions: map<string, int>, key: string): int {
    if key in reactions && reactions[key] != 0 then reactions[key] else 0
  }

  /** `p.comments || []` */
  function CommentsOf(p: PhotoDoc): seq<CommentDoc> {
    p.comments.GetOr([])
  }
}
