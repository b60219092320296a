/** The comment service: comments and replies with the notifications they
    send, the paged comment listing with reply counts, and deletion by the
    author. Unlike the post service it never touches `commentsCount`. */
module CommentService {
  import opened Wrappers
  import opened Db
  import Tables
  import Strings
  import PostService

  const EmptyText := "Comment text cannot be empty"
  const InvalidParent := "Invalid parent comment ID"
  const NotFound := "Comment not found"
  const Unauthorized := "Unauthorized to delete this comment"

  /** `!text?.trim()`: the text is absent or only whitespace. */
  predicate BlankText(text: Option<string>) {
    text.None? || Strings.Trim(text.value) == ""
  }

  /** A parent id that is given (and not 0) must name an existing comment
      of the same post. */
  predicate ValidParent(comments: seq<Comment>, postId: nat, parentId: Option<nat>) {
    PostService.Given(parentId) ==>
      CommentById(comments, parentId.value).Some? && CommentById(comments, parentId.value).value.postId == postId
  }

  /** The author of the parent comment, read only when a parent is given. */
  function ParentAuthor(comments: seq<Comment>, parentId: Option<nat>): (r: Option<nat>)
    ensures r.Some? <==> PostService.Given(parentId) && CommentById(comments, parentId.value).Some?
    ensures r.Some? ==> r.value == CommentById(comments, parentId.value).value.authorId
  {
    if PostService.Given(parentId) && CommentById(comments, parentId.value).Some?
    then Some(CommentById(comments, parentId.value).value.authorId)
    else None
  }

  /** The notifications a new comment sends, in order: one to the post's
      author unless they wrote the comment (`REPLY` for a reply, `COMMENT`
      otherwise), then one `REPLY` to the parent comment's author unless
      that is the commenter or the post's author. */
  function CommentNotes(postAuthorId: nat, userId: nat, postId: nat, commentId: nat,
                        parentId: Option<nat>, parentAuthorId: Option<nat>): (r: seq<NotificationData>)
    ensures |r| <= 2
    ensures forall i :: 0 <= i < |r| ==>
      r[i].recipientId != userId && r[i].senderId == userId && r[i].senderColumn == SenderIdColumn
      && r[i].postId == Some(postId) && r[i].commentId == Some(commentId)
    ensures forall i, j :: 0 <= i < j < |r| ==> r[i].recipientId != r[j].recipientId
    ensures forall x :: x in Recipients(r) <==>
      x != userId && (x == postAuthorId || (PostService.Given(parentId) && PostService.Given(parentAuthorId) && x == parentAuthorId.value))
    ensures forall i :: 0 <= i < |r| ==>
      r[i].kind == (if r[i].recipientId == postAuthorId then PostService.CommentKind(parentId) else ReplyNote)
  {
    var toPostAuthor :=
      if postAuthorId != userId
      then [NotificationData(postAuthorId, SenderIdColumn, userId, Some(postId), Some(commentId), PostService.CommentKind(parentId))]
      else [];
    var toParentAuthor :=
      if PostService.Given(parentId) && PostService.Given(parentAuthorId)
         && parentAuthorId.value != userId && parentAuthorId.value != postAuthorId
      then [NotificationData(parentAuthorId.value, SenderIdColumn, userId, Some(postId), Some(commentId), ReplyNote)]
      else [];
    var r := toPostAuthor + toParentAuthor;
    RecipientsOfTwo(r);
    r
  }

  /** The users a list of notifications is addressed to. */
  function Recipients(notes: seq<NotificationData>): set<nat> {
    set i | 0 <= i < |notes| :: notes[i].recipientId
  }

  lemma RecipientsOfTwo(notes: seq<NotificationData>)
    requires |notes| <= 2
    ensures |notes| == 0 ==> Recipients(notes) == {}
    ensures |notes| == 1 ==> Recipients(notes) == {notes[0].recipientId}
    ensures |notes| == 2 ==> Recipients(notes) == {notes[0].recipientId, notes[1].recipientId}
  {
    if |notes| == 1 {
      assert notes[0].recipientId in Recipients(notes);
    } else if |notes| == 2 {
      assert notes[0].recipientId in Recipients(notes);
      assert notes[1].recipientId in Recipients(notes);
    }
  }

  /** The notification table after the creates of `notes`, each of whose
      failure is caught. */
  function NotifyAll(t: seq<Notification>, notes: seq<NotificationData>, now: int): seq<Notification>
    decreases |notes|
  {
    if |notes| == 0 then t else NotifyAll(NotifyOrKeep(t, notes[0], now), notes[1..], now)
  }

  /** Creates that name the `senderId` column append one unread row per
      note, in order, each to the note's recipient and from its sender. */
  lemma {:induction false} NotifyAllAppends(t: seq<Notification>, notes: seq<NotificationData>, now: int)
    requires forall i :: 0 <= i < |notes| ==> notes[i].senderColumn == SenderIdColumn
    ensures var t' := NotifyAll(t, notes, now);
      |t'| == |t| + |notes| && t'[..|t|] == t
      && forall i :: 0 <= i < |notes| ==>
           t'[|t| + i].recipientId == notes[i].recipientId && t'[|t| + i].senderId == Some(notes[i].senderId)
           && t'[|t| + i].kind == notes[i].kind && !t'[|t| + i].isRead
    decreases |notes|
  {
    if |notes| > 0 {
      var t1 := NotifyOrKeep(t, notes[0], now);
      SenderIdCreateAppends(t, notes[0], now);
      NotifyAllAppends(t1, notes[1..], now);
      var t' := NotifyAll(t1, notes[1..], now);
      assert t'[..|t|] == t'[..|t1|][..|t|];
      forall i | 1 <= i < |notes|
        ensures t'[|t| + i].recipientId == notes[i].recipientId && t'[|t| + i].senderId == Some(notes[i].senderId)
             && t'[|t| + i].kind == notes[i].kind && !t'[|t| + i].isRead
      {
        assert notes[1..][i - 1] == notes[i];
        assert |t| + i == |t1| + (i - 1);
      }
      assert t'[|t|] == t'[..|t1|][|t|] == t1[|t|];
    }
  }

  /** The stored row of a new comment: the text as given (untrimmed), and
      the parent only when a parent id is given and not 0. */
  function NewComment(comments: seq<Comment>, userId: nat, postId: nat, text: string, parentId: Option<nat>, now: int)
    : (r: Comment)
    ensures forall c :: c in comments ==> c.id != r.id
    ensures r.text == text && r.postId == postId && r.authorId == userId && r.createdAt == now
    ensures r.parentId.Some? <==> PostService.Given(parentId)
    ensures r.parentId.Some? ==> r.parentId == parentId
  {
    var ids := CommentIds(comments);
    var id := FreshId(ids);
    assert forall k :: 0 <= k < |comments| ==> comments[k].id == ids[k];
    Comment(id, text, postId, userId, if PostService.Given(parentId) then parentId else None, now)
  }

  /** The notification table `t'` is `t` followed by at most two unread
      rows from `userId`, to distinct recipients other than `userId`. */
  ghost predicate NotesAppended(t: seq<Notification>, t': seq<Notification>, userId: nat) {
    |t| <= |t'| <= |t| + 2 && t'[..|t|] == t
    && (forall i, j :: |t| <= i < j < |t'| ==> t'[i].recipientId != t'[j].recipientId)
    && forall n :: n in t'[|t|..] ==> n.recipientId != userId && n.senderId == Some(userId) && !n.isRead
  }

  /** Sending the notifications of a comment appends at most two unread
      rows from the commenter, to distinct recipients other than the
      commenter, and keeps the earlier rows. */
  lemma CommentNotesAppended(t: seq<Notification>, notes: seq<NotificationData>, userId: nat, now: int)
    requires |notes| <= 2
    requires forall i :: 0 <= i < |notes| ==>
      notes[i].recipientId != userId && notes[i].senderId == userId && notes[i].senderColumn == SenderIdColumn
    requires forall i, j :: 0 <= i < j < |notes| ==> notes[i].recipientId != notes[j].recipientId
    ensures NotesAppended(t, NotifyAll(t, notes, now), userId)
  {
    NotifyAllAppends(t, notes, now);
    var t' := NotifyAll(t, notes, now);
    forall n | n in t'[|t|..]
      ensures n.recipientId != userId && n.senderId == Some(userId) && !n.isRead
    {
      var k :| 0 <= k < |t'[|t|..]| && t'[|t|..][k] == n;
      assert n == t'[|t| + k];
    }
    forall i, j | |t| <= i < j < |t'|
      ensures t'[i].recipientId != t'[j].recipientId
    {
      assert t'[|t| + (i - |t|)].recipientId == notes[i - |t|].recipientId;
      assert t'[|t| + (j - |t|)].recipientId == notes[j - |t|].recipientId;
    }
  }

  /** `createComment`: the text must not be blank, a given parent must be a
      comment of the same post, and the author and the post must exist (the
      nested connects fail otherwise). The comment is added without any
      counter update, then the notifications of `CommentNotes` are sent. */
  method CreateComment(db: Database, userId: nat, postId: nat, text: Option<string>, parentId: Option<nat>, now: int)
    returns (r: Result<Comment, string>)
    modifies db`comments, db`notifications
    ensures BlankText(text) ==>
      r == Err(EmptyText) && db.comments == old(db.comments) && db.notifications == old(db.notifications)
    ensures !BlankText(text) && !ValidParent(old(db.comments), postId, parentId) ==>
      r == Err(InvalidParent) && db.comments == old(db.comments) && db.notifications == old(db.notifications)
    ensures !BlankText(text) && ValidParent(old(db.comments), postId, parentId)
            && !PostService.References(db.users, db.posts, userId, postId) ==>
      r == Err(RecordNotFound) && db.comments == old(db.comments) && db.notifications == old(db.notifications)
    ensures !BlankText(text) && ValidParent(old(db.comments), postId, parentId)
            && PostService.References(db.users, db.posts, userId, postId) ==>
      var comment := NewComment(old(db.comments), userId, postId, text.value, parentId, now);
      var notes := CommentNotes(PostById(db.posts, postId).value.authorId, userId, postId, comment.id,
                                parentId, ParentAuthor(old(db.comments), parentId));
      r == Ok(comment)
      && db.comments == old(db.comments) + [comment]
      && db.notifications == NotifyAll(old(db.notifications), notes, now)
    ensures NotesAppended(old(db.notifications), db.notifications, userId)
  {
    assert NotesAppended(db.notifications, db.notifications, userId);
    if BlankText(text) {
      return Err(EmptyText);
    }
    if PostService.Given(parentId) {
      var parent := CommentById(db.comments, parentId.value);
      if parent.None? || parent.value.postId != postId {
        return Err(InvalidParent);
      }
    }
    if !PostService.References(db.users, db.posts, userId, postId) {
      return Err(RecordNotFound);
    }
    var parentAuthorId := ParentAuthor(db.comments, parentId);
    var comment := NewComment(db.comments, userId, postId, text.value, parentId, now);
    db.comments := db.comments + [comment];
    var post := PostById(db.posts, postId).value;
    var notes := CommentNotes(post.authorId, userId, postId, comment.id, parentId, parentAuthorId);
    CommentNotesAppended(db.notifications, notes, userId, now);
    db.notifications := NotifyAll(db.notifications, notes, now);
    r := Ok(comment);
  }

  /** A new comment leaves its post's `commentsCount` one short of the
      post's comment rows. */
  lemma CreateLeavesCountStale(posts: seq<Post>, likes: seq<Like>, favorites: seq<Favorite>,
                               comments: seq<Comment>, c: Comment)
    ensures forall k :: 0 <= k < |posts| && posts[k].id == c.postId ==>
      Drift(posts[k], Comments, likes, favorites, comments + [c]) == Drift(posts[k], Comments, likes, favorites, comments) - 1
  {
    Tables.CountSnoc(comments, c, CommentOnPost(c.postId));
  }

  /** The comments answering comment `id`, as `_count.replies` counts them. */
  function ReplyTo(id: nat): Comment -> bool {
    (c: Comment) => c.parentId == Some(id)
  }

  /** A listed comment: its columns but the foreign keys, its author and the
      number of its replies. */
  datatype CommentItem = CommentItem(
    id: nat,
    text: string,
    createdAt: int,
    parentId: Option<nat>,
    author: Option<PostService.AuthorInfo>,
    repliesCount: nat)

  function Item(c: Comment, comments: seq<Comment>, users: seq<User>): (r: CommentItem)
    ensures r.id == c.id && r.text == c.text && r.createdAt == c.createdAt && r.parentId == c.parentId
    ensures r.author == PostService.AuthorOf(users, c.authorId)
    ensures r.repliesCount == Tables.Count(comments, ReplyTo(c.id))
  {
    CommentItem(c.id, c.text, c.createdAt, c.parentId, PostService.AuthorOf(users, c.authorId),
                Tables.Count(comments, ReplyTo(c.id)))
  }

  function Items(rows: seq<Comment>, comments: seq<Comment>, users: seq<User>): (r: seq<CommentItem>)
    ensures |r| == |rows|
    ensures forall i :: 0 <= i < |rows| ==> r[i] == Item(rows[i], comments, users)
  {
    if |rows| == 0 then [] else [Item(rows[0], comments, users)] + Items(rows[1..], comments, users)
  }

  datatype CommentsPage = CommentsPage(comments: seq<CommentItem>, totalCount: nat)

  /** `getCommentsByPostId`: defaults page 1 and limit 10, `skip = (page -
      1) * limit`, oldest first; `totalCount` counts every comment of the
      post. A negative skip makes the query fail; a negative limit reads
      the page from the newest end. */
  function GetCommentsByPostId(comments: seq<Comment>, users: seq<User>, postId: nat,
                               page: Option<int>, limit: Option<int>): (r: Result<CommentsPage, string>)
    ensures var skip := Tables.Skip(page.GetOr(1), limit.GetOr(10));
      var take := limit.GetOr(10);
      var ordered := PostService.PostComments(comments, postId);
      (r.Err? <==> skip < 0)
      && (r.Ok? ==>
            r.value.totalCount == CommentCount(comments, postId)
            && Tables.IsPage(r.value.comments, Items(ordered, comments, users), skip, take))
  {
    var skip := Tables.Skip(page.GetOr(1), limit.GetOr(10));
    var take := limit.GetOr(10);
    if skip < 0 then Err(InvalidPaging)
    else
      var ordered := PostService.PostComments(comments, postId);
      var listed := Items(Tables.Window(ordered, skip, take), comments, users);
      Tables.PageOfMapped(listed, Items(ordered, comments, users), ordered, skip, take);
      Ok(CommentsPage(listed, |ordered|))
  }

  /** A listed page is oldest first and holds only comments of the post. */
  lemma ListedCommentsInOrder(comments: seq<Comment>, users: seq<User>, postId: nat,
                              page: Option<int>, limit: Option<int>)
    requires GetCommentsByPostId(comments, users, postId, page, limit).Ok?
    ensures var items := GetCommentsByPostId(comments, users, postId, page, limit).value.comments;
      (forall i, j :: 0 <= i < j < |items| ==> items[i].createdAt <= items[j].createdAt)
      && forall i :: 0 <= i < |items| ==> exists c :: c in comments && c.postId == postId && c.id == items[i].id
  {
    var skip := Tables.Skip(page.GetOr(1), limit.GetOr(10));
    var take := limit.GetOr(10);
    var ordered := PostService.PostComments(comments, postId);
    assert skip >= 0;
    var window := Tables.Window(ordered, skip, take);
    Tables.WindowOfSorted(ordered, skip, take, PostService.OldestFirst());
    var items := Items(window, comments, users);
    assert GetCommentsByPostId(comments, users, postId, page, limit).value.comments == items;
    forall i, j | 0 <= i < j < |items|
      ensures items[i].createdAt <= items[j].createdAt
    {
      assert items[i].createdAt == window[i].createdAt && items[j].createdAt == window[j].createdAt;
      assert PostService.OldestFirst()(window[i], window[j]);
    }
    forall i | 0 <= i < |items|
      ensures exists c :: c in comments && c.postId == postId && c.id == items[i].id
    {
      var c := window[i];
      assert c in multiset(ordered);
      assert c in multiset(Tables.Filter(comments, CommentOnPost(postId)));
      assert c in comments && CommentOnPost(postId)(c);
      assert items[i].id == c.id;
    }
  }

  /** `deleteComment`: `Comment not found` for a missing id, `Unauthorized`
      for anyone but the author; otherwise the comment is removed and
      returned. `commentsCount` is not updated. */
  method DeleteComment(db: Database, userId: nat, commentId: int) returns (r: Result<Comment, string>)
    modifies db`comments
    ensures CommentById(old(db.comments), commentId).None? ==> r == Err(NotFound) && db.comments == old(db.comments)
    ensures CommentById(old(db.comments), commentId).Some? && CommentById(old(db.comments), commentId).value.authorId != userId ==>
      r == Err(Unauthorized) && db.comments == old(db.comments)
    ensures CommentById(old(db.comments), commentId).Some? && CommentById(old(db.comments), commentId).value.authorId == userId ==>
      r == Ok(CommentById(old(db.comments), commentId).value)
      && db.comments == Tables.DeleteWhere(old(db.comments), CommentWithId(commentId))
    ensures r.Ok? ==> CommentById(db.comments, commentId).None?
    ensures r.Err? <==> db.comments == old(db.comments)
  {
    var found := CommentById(db.comments, commentId);
    if found.None? {
      forall j | 0 <= j < |db.comments|
        ensures !CommentWithId(commentId)(db.comments[j])
      {
        assert db.comments[j] in db.comments;
      }
      Tables.DeleteWhereNone(db.comments, CommentWithId(commentId));
      return Err(NotFound);
    }
    if found.value.authorId != userId {
      return Err(Unauthorized);
    }
    assert found.value in db.comments && !(found.value in Tables.DeleteWhere(db.comments, CommentWithId(commentId)));
    db.comments := Tables.DeleteWhere(db.comments, CommentWithId(commentId));
    r := Ok(found.value);
  }

  /** Deleting a comment leaves its post's `commentsCount` one above the
      post's comment rows. */
  lemma DeleteLeavesCountStale(posts: seq<Post>, likes: seq<Like>, favorites: seq<Favorite>,
                               comments: seq<Comment>, id: nat)
    requires UniqueIds(CommentIds(comments)) && CommentById(comments, id).Some?
    ensures var c := CommentById(comments, id).value;
      var comments' := Tables.DeleteWhere(comments, CommentWithId(id));
      forall k :: 0 <= k < |posts| && posts[k].id == c.postId ==>
        Drift(posts[k], Comments, likes, favorites, comments') == Drift(posts[k], Comments, likes, favorites, comments) + 1
  {
    var i := DeleteExistingComment(comments, id);
    var c := comments[i];
    var comments' := comments[..i] + comments[i + 1..];
    Tables.CountRemoveAt(comments, i, CommentOnPost(c.postId));
    assert CommentCount(comments', c.postId) == CommentCount(comments, c.postId) - 1;
    forall k | 0 <= k < |posts| && posts[k].id == c.postId
      ensures Drift(posts[k], Comments, likes, favorites, comments') == Drift(posts[k], Comments, likes, favorites, comments) + 1
    {
    }
  }
}
