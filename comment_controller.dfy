/** The comment HTTP handlers as functions: the request checks that lead
    to the post service's comment operations, and the reply chosen from
    the outcome. The body's `text` and `parentId` are JSON values, `None`
    when absent. */
module CommentController {
  import opened Wrappers
  import Strings
  import Numbers
  import Json
  import Db
  import Service = PostService

  /** A status code and the `message` of the JSON body. */
  datatype Reply = Reply(status: nat, message: string)

  /** What `createComment` hands to the service. */
  datatype CommentCall = CommentCall(postId: int, text: string, authorId: nat, parentId: Option<int>)

  /** The body's `text` as the handler accepts it: a text that is not
      blank once trimmed. */
  predicate ValidText(text: Option<Json.Json>) {
    text.Some? && text.value.JStr? && Strings.Trim(text.value.s) != ""
  }

  /** The body's `parentId` as the handler accepts it: absent, or an
      integer number. */
  predicate ValidParent(parentId: Option<Json.Json>) {
    parentId.None? || parentId.value.JNum?
  }

  /** `createComment` up to the service call: the post id, then the user,
      then the text, then the parent id; the service gets the trimmed
      text. */
  function CreateCommentStep(rawPostId: string, userId: Option<nat>, text: Option<Json.Json>, parentId: Option<Json.Json>)
    : (r: Result<CommentCall, Reply>)
    ensures Numbers.ParseInt(rawPostId).None? ==> r == Err(Reply(400, "Invalid post ID"))
    ensures Numbers.ParseInt(rawPostId).Some? && !Service.Given(userId) ==> r == Err(Reply(401, "Unauthorized"))
    ensures Numbers.ParseInt(rawPostId).Some? && Service.Given(userId) && !ValidText(text) ==>
      r == Err(Reply(400, "Comment text is required and must be a non-empty string"))
    ensures Numbers.ParseInt(rawPostId).Some? && Service.Given(userId) && ValidText(text) && !ValidParent(parentId) ==>
      r == Err(Reply(400, "Invalid parent comment ID"))
    ensures r.Ok? <==> Numbers.ParseInt(rawPostId).Some? && Service.Given(userId) && ValidText(text) && ValidParent(parentId)
    ensures r.Ok? ==>
      r.value.postId == Numbers.ParseInt(rawPostId).value && r.value.authorId == userId.value
      && r.value.text == Strings.Trim(text.value.s)
      && r.value.text != "" && Strings.Trim(r.value.text) == r.value.text
      && (parentId.None? <==> r.value.parentId.None?)
      && (parentId.Some? ==> parentId.value == Json.JNum(r.value.parentId.value))
  {
    match Numbers.ParseInt(rawPostId)
    case None => Err(Reply(400, "Invalid post ID"))
    case Some(postId) =>
      if !Service.Given(userId) then Err(Reply(401, "Unauthorized"))
      else if !ValidText(text) then Err(Reply(400, "Comment text is required and must be a non-empty string"))
      else if !ValidParent(parentId) then Err(Reply(400, "Invalid parent comment ID"))
      else
        Strings.TrimIdempotent(text.value.s);
        var parent := if parentId.None? then None else Some(parentId.value.n);
        Ok(CommentCall(postId, Strings.Trim(text.value.s), userId.value, parent))
  }

  /** The reply of `createComment`: a missing record is 404, any other
      failure 500 with its message. */
  function CreateCommentReply(outcome: Result<Db.Comment, string>): (r: Reply)
    ensures outcome.Ok? <==> r.status == 201
    ensures outcome == Err(Db.RecordNotFound) ==> r == Reply(404, "Post not found or related resource missing")
    ensures outcome.Err? && outcome.error != Db.RecordNotFound ==>
      r == Reply(500, Strings.MessageOr(outcome.error, "Failed to create comment"))
  {
    match outcome
    case Ok(_) => Reply(201, "Comment created successfully")
    case Err(m) =>
      if m == Db.RecordNotFound then Reply(404, "Post not found or related resource missing")
      else Reply(500, Strings.MessageOr(m, "Failed to create comment"))
  }

  /** The reply of `getCommentsByPostId`: 400 for a post id that is not
      a number, otherwise 200 with the service's list, or 500 when it
      fails. */
  function GetCommentsReply(rawPostId: string, outcome: Result<seq<Db.Comment>, string>): (r: Reply)
    ensures Numbers.ParseInt(rawPostId).None? ==> r == Reply(400, "Invalid post ID")
    ensures Numbers.ParseInt(rawPostId).Some? ==> (r.status == 200 <==> outcome.Ok?)
    ensures Numbers.ParseInt(rawPostId).Some? && outcome.Err? ==>
      r == Reply(500, Strings.MessageOr(outcome.error, "Failed to retrieve comments"))
  {
    if Numbers.ParseInt(rawPostId).None? then Reply(400, "Invalid post ID")
    else match outcome
      case Ok(_) => Reply(200, "")
      case Err(m) => Reply(500, Strings.MessageOr(m, "Failed to retrieve comments"))
  }

  /** `deleteComment` up to the service call: the comment id, then the
      user. */
  function DeleteCommentStep(rawCommentId: string, userId: Option<nat>): (r: Result<(int, nat), Reply>)
    ensures Numbers.ParseInt(rawCommentId).None? ==> r == Err(Reply(400, "Invalid comment ID"))
    ensures Numbers.ParseInt(rawCommentId).Some? && !Service.Given(userId) ==> r == Err(Reply(401, "Unauthorized"))
    ensures r.Ok? <==> Numbers.ParseInt(rawCommentId).Some? && Service.Given(userId)
    ensures r.Ok? ==> r.value == (Numbers.ParseInt(rawCommentId).value, userId.value)
  {
    match Numbers.ParseInt(rawCommentId)
    case None => Err(Reply(400, "Invalid comment ID"))
    case Some(id) => if !Service.Given(userId) then Err(Reply(401, "Unauthorized")) else Ok((id, userId.value))
  }

  /** The reply of `deleteComment`: 204 whenever the service does not
      fail, even when it found nothing to delete; a failure naming
      `Forbidden` is 403, a missing record 404, anything else 500. */
  function DeleteCommentReply(outcome: Result<Option<Db.Comment>, string>): (r: Reply)
    ensures outcome.Ok? <==> r.status == 204
    ensures outcome.Err? && Strings.Contains(outcome.error, "Forbidden") ==> r == Reply(403, outcome.error)
    ensures outcome.Err? && !Strings.Contains(outcome.error, "Forbidden") ==>
      r.status == (if outcome.error == Db.RecordNotFound then 404 else 500)
  {
    match outcome
    case Ok(_) => Reply(204, "")
    case Err(m) =>
      if Strings.Contains(m, "Forbidden") then Reply(403, m)
      else if m == Db.RecordNotFound then Reply(404, "Comment not found")
      else Reply(500, Strings.MessageOr(m, "Failed to delete comment"))
  }

  /** The service's refusal of a non-author is 403, and deleting a comment
      that does not exist is answered as a success. */
  lemma DeleteOutcomes()
    ensures DeleteCommentReply(Err(Service.NotYourComment)).status == 403
    ensures DeleteCommentReply(Ok(None)).status == 204
  {
    var m := Service.NotYourComment;
    assert m == "Forbidden" + m[9..];
    Strings.ContainsPrefix("Forbidden", m[9..]);
  }
}
