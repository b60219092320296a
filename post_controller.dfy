/** The post HTTP handlers as functions: the checks that lead to the post
    service (or to an early reply), and the reply chosen from the
    service's outcome. The authenticated user id is `None` when the
    authentication step left none; an uploaded file is its saved name. */
module PostController {
  import opened Wrappers
  import Strings
  import Numbers
  import Db
  import Service = PostService

  /** A status code and the `message` of the JSON body. */
  datatype Reply = Reply(status: nat, message: string)

  const UploadPrefix := "/uploads/posts/"
  const NoUser := "Unauthorized: User ID not found"

  /** What `createPost` hands to the service. */
  datatype NewPost = NewPost(title: string, content: string, authorId: nat, imageUrl: Option<string>)

  /** `createPost` up to the service call: 401 without a user, 400 without
      a title; the content defaults to the empty text and the image is the
      uploaded file's public path. */
  function CreatePostStep(userId: Option<nat>, title: Option<string>, content: Option<string>, filename: Option<string>)
    : (r: Result<NewPost, Reply>)
    ensures !Service.Given(userId) ==> r == Err(Reply(401, NoUser))
    ensures Service.Given(userId) && (title.None? || title.value == "") ==> r == Err(Reply(400, "Title is required"))
    ensures r.Ok? <==> Service.Given(userId) && title.Some? && title.value != ""
    ensures r.Ok? ==>
      r.value.title == title.value && r.value.authorId == userId.value
      && r.value.content == (if content.None? then "" else content.value)
      && (filename.None? <==> r.value.imageUrl.None?)
      && (filename.Some? ==> r.value.imageUrl == Some(UploadPrefix + filename.value))
  {
    if !Service.Given(userId) then Err(Reply(401, NoUser))
    else if title.None? || title.value == "" then Err(Reply(400, "Title is required"))
    else
      var image := if filename.None? then None else Some(UploadPrefix + filename.value);
      Ok(NewPost(title.value, if content.None? then "" else content.value, userId.value, image))
  }

  /** How `createPost` can fail: an upload error (Multer's, or a message
      naming a wrong file type), a known database error with its code, or
      anything else. */
  datatype CreateError = MulterFailure | DatabaseFailure(code: string) | OtherFailure(message: string)

  /** An upload error, which the handler only logs. */
  predicate UploadFailure(e: CreateError) {
    e.MulterFailure? || (e.OtherFailure? && Strings.Contains(e.message, "文件类型错误"))
  }

  /** The reply of `createPost`, `None` where the handler sends none. */
  function CreatePostReply(outcome: Result<Db.Post, CreateError>): (r: Option<Reply>)
    ensures r.None? <==> outcome.Err? && UploadFailure(outcome.error)
    ensures outcome.Ok? ==> r == Some(Reply(201, "Post created successfully"))
    ensures outcome.Err? && outcome.error.DatabaseFailure? ==>
      r == Some(Reply(400, "Database error (Code: " + outcome.error.code + ")"))
    ensures outcome.Err? && outcome.error.OtherFailure? && !UploadFailure(outcome.error) ==>
      r == Some(Reply(500, "Internal server error creating post"))
  {
    match outcome
    case Ok(_) => Some(Reply(201, "Post created successfully"))
    case Err(e) =>
      if UploadFailure(e) then None
      else if e.DatabaseFailure? then Some(Reply(400, "Database error (Code: " + e.code + ")"))
      else Some(Reply(500, "Internal server error creating post"))
  }

  /** `parseInt(req.params.postId, 10)` and the `isNaN` check. */
  function PostIdStep(rawId: string): (r: Result<int, Reply>)
    ensures r.Err? <==> Numbers.ParseInt(rawId).None?
    ensures r.Err? ==> r.error == Reply(400, "Invalid post ID")
    ensures r.Ok? ==> Numbers.ParseInt(rawId) == Some(r.value)
  {
    match Numbers.ParseInt(rawId)
    case None => Err(Reply(400, "Invalid post ID"))
    case Some(id) => Ok(id)
  }

  /** The reply of `getPostById` to the service's lookup. */
  function GetPostByIdReply(outcome: Result<Option<Service.PostView>, string>): (r: Reply)
    ensures outcome.Ok? && outcome.value.Some? <==> r.status == 200
    ensures outcome == Ok(None) ==> r == Reply(404, "Post not found")
    ensures outcome.Err? ==> r == Reply(500, "Failed to retrieve post")
  {
    match outcome
    case Ok(None) => Reply(404, "Post not found")
    case Ok(Some(_)) => Reply(200, "")
    case Err(_) => Reply(500, "Failed to retrieve post")
  }

  /** The `updateData` of `updatePost`: exactly the fields the body
      defines; a given image may be `null`. */
  datatype UpdateData = UpdateData(title: Option<string>, content: Option<string>, imageUrl: Option<Option<string>>)

  datatype UpdateCall = UpdateCall(postId: int, userId: nat, data: UpdateData)

  /** `updatePost` up to the service call: the id is checked first, then
      the user, then that some field is defined. */
  function UpdatePostStep(rawId: string, userId: Option<nat>, title: Option<string>, content: Option<string>,
                          imageUrl: Option<Option<string>>): (r: Result<UpdateCall, Reply>)
    ensures Numbers.ParseInt(rawId).None? ==> r == Err(Reply(400, "Invalid post ID"))
    ensures Numbers.ParseInt(rawId).Some? && !Service.Given(userId) ==> r == Err(Reply(401, NoUser))
    ensures Numbers.ParseInt(rawId).Some? && Service.Given(userId) && title.None? && content.None? && imageUrl.None? ==>
      r == Err(Reply(400, "No update data provided (title, content, or imageUrl)"))
    ensures r.Ok? <==> Numbers.ParseInt(rawId).Some? && Service.Given(userId)
                       && (title.Some? || content.Some? || imageUrl.Some?)
    ensures r.Ok? ==> r.value == UpdateCall(Numbers.ParseInt(rawId).value, userId.value, UpdateData(title, content, imageUrl))
  {
    match PostIdStep(rawId)
    case Err(reply) => Err(reply)
    case Ok(id) =>
      if !Service.Given(userId) then Err(Reply(401, NoUser))
      else if title.None? && content.None? && imageUrl.None? then
        Err(Reply(400, "No update data provided (title, content, or imageUrl)"))
      else Ok(UpdateCall(id, userId.value, UpdateData(title, content, imageUrl)))
  }

  /** The reply of `updatePost` or `deletePost` to the service's outcome:
      `null` is 404, an error starting with `Forbidden` is 403 with its
      text, any other error 500 with the handler's own message. */
  function ChangeReply(outcome: Result<Option<Db.Post>, string>, done: string, internal: string): (r: Reply)
    ensures outcome.Ok? && outcome.value.Some? <==> r == Reply(200, done)
    ensures outcome == Ok(None) ==> r == Reply(404, "Post not found")
    ensures outcome.Err? && Strings.StartsWith(outcome.error, "Forbidden") ==> r == Reply(403, outcome.error)
    ensures outcome.Err? && !Strings.StartsWith(outcome.error, "Forbidden") ==> r == Reply(500, internal)
  {
    match outcome
    case Ok(None) => Reply(404, "Post not found")
    case Ok(Some(_)) => Reply(200, done)
    case Err(m) => if Strings.StartsWith(m, "Forbidden") then Reply(403, m) else Reply(500, internal)
  }

  function UpdatePostReply(outcome: Result<Option<Db.Post>, string>): Reply {
    ChangeReply(outcome, "Post updated successfully", "Internal server error updating post")
  }

  /** `deletePost` up to the service call: the id, then the user. */
  function DeletePostStep(rawId: string, userId: Option<nat>): (r: Result<(int, nat), Reply>)
    ensures Numbers.ParseInt(rawId).None? ==> r == Err(Reply(400, "Invalid post ID"))
    ensures Numbers.ParseInt(rawId).Some? && !Service.Given(userId) ==> r == Err(Reply(401, NoUser))
    ensures r.Ok? <==> Numbers.ParseInt(rawId).Some? && Service.Given(userId)
    ensures r.Ok? ==> r.value == (Numbers.ParseInt(rawId).value, userId.value)
  {
    match PostIdStep(rawId)
    case Err(reply) => Err(reply)
    case Ok(id) => if !Service.Given(userId) then Err(Reply(401, NoUser)) else Ok((id, userId.value))
  }

  function DeletePostReply(outcome: Result<Option<Db.Post>, string>): Reply {
    ChangeReply(outcome, "Post deleted successfully", "Internal server error deleting post")
  }

  /** The service's refusals of a non-author reach the client as 403. */
  lemma NonAuthorsGetForbidden()
    ensures UpdatePostReply(Err("Forbidden: You can only update your own posts")).status == 403
    ensures DeletePostReply(Err("Forbidden: You can only delete your own posts")).status == 403
  {
    assert Strings.StartsWith("Forbidden: You can only update your own posts", "Forbidden");
    assert Strings.StartsWith("Forbidden: You can only delete your own posts", "Forbidden");
  }

  /** The service edits only the title and the content, so a request that
      defines only `imageUrl` passes the checks and leaves the post as it
      was. */
  lemma ImageOnlyUpdateKeepsPost(rawId: string, userId: Option<nat>, imageUrl: Option<string>, p: Db.Post)
    requires UpdatePostStep(rawId, userId, None, None, Some(imageUrl)).Ok?
    ensures var data := UpdatePostStep(rawId, userId, None, None, Some(imageUrl)).value.data;
      Service.Edited(p, data.title, data.content) == p
  {
  }
}
