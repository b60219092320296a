/** The like service: likes keyed by the (user, post) pair, with a
    notification to the post's author and no counter update. */
module LikeService {
  import opened Wrappers
  import opened Db
  import Tables

  /** The only error the service renames: a record that the transaction
      needs and cannot find. Any other error is passed on unchanged. */
  function LikeFailure(code: string): (r: string)
    ensures code == RecordNotFound ==> r == "Post not found"
    ensures code != RecordNotFound ==> r == code
  {
    if code == RecordNotFound then "Post not found" else code
  }

  /** The LIKE notification for a like by `userId` on `post`. */
  function LikeNotification(post: Post, userId: nat): NotificationData {
    NotificationData(post.authorId, SenderIdColumn, userId, Some(post.id), None, LikeNote)
  }

  /** `likePost`: an existing like is returned and nothing changes;
      otherwise the like is added (the insert fails when the user or the
      post does not exist) and the post's author, unless it is the liker,
      gets one unread LIKE notification. */
  method LikePost(db: Database, userId: nat, postId: nat, now: int) returns (r: Result<Like, string>)
    modifies db`likes, db`notifications
    ensures LikeOf(old(db.likes), userId, postId).Some? ==>
      r == Ok(LikeOf(old(db.likes), userId, postId).value)
      && db.likes == old(db.likes) && db.notifications == old(db.notifications)
    ensures LikeOf(old(db.likes), userId, postId).None? &&
            (UserById(db.users, userId).None? || PostById(db.posts, postId).None?) ==>
      r == Err(LikeFailure(ForeignKeyFailed)) && db.likes == old(db.likes) && db.notifications == old(db.notifications)
    ensures LikeOf(old(db.likes), userId, postId).None? &&
            UserById(db.users, userId).Some? && PostById(db.posts, postId).Some? ==>
      var post := PostById(db.posts, postId).value;
      r == Ok(Like(userId, postId, now))
      && db.likes == old(db.likes) + [Like(userId, postId, now)]
      && db.notifications ==
           (if post.authorId != userId then NotifyOrKeep(old(db.notifications), LikeNotification(post, userId), now)
            else old(db.notifications))
    ensures r.Ok? ==> LikeOf(db.likes, userId, postId).Some?
    ensures UniqueLikes(old(db.likes)) ==> UniqueLikes(db.likes)
    ensures |old(db.notifications)| <= |db.notifications| <= |old(db.notifications)| + 1
    ensures db.notifications[..|old(db.notifications)|] == old(db.notifications)
    ensures forall n :: n in db.notifications[|old(db.notifications)|..] ==>
      n.senderId == Some(userId) && n.recipientId != userId && n.kind == LikeNote && !n.isRead
  {
    var existing := LikeOf(db.likes, userId, postId);
    if existing.Some? {
      return Ok(existing.value);
    }
    if UserById(db.users, userId).None? || PostById(db.posts, postId).None? {
      return Err(LikeFailure(ForeignKeyFailed));
    }
    var like := Like(userId, postId, now);
    if UniqueLikes(db.likes) {
      AddLikeKeepsUnique(db.likes, like);
    }
    db.likes := db.likes + [like];
    assert like in db.likes;
    var post := PostById(db.posts, postId).value;
    if post.authorId != userId {
      var before := db.notifications;
      SenderIdCreateAppends(before, LikeNotification(post, userId), now);
      db.notifications := NotifyOrKeep(before, LikeNotification(post, userId), now);
      assert db.notifications == before + [db.notifications[|before|]] by {
        assert db.notifications == db.notifications[..|before|] + [db.notifications[|before|]];
      }
      assert db.notifications[|before|..] == [db.notifications[|before|]];
    }
    r := Ok(like);
  }

  /** `unlikePost`: deletes the (user, post) like and returns it, or
      returns `null` when there is none. No counter changes. */
  method UnlikePost(db: Database, userId: nat, postId: nat) returns (r: Option<Like>)
    modifies db`likes
    ensures r == LikeOf(old(db.likes), userId, postId)
    ensures db.likes == Tables.DeleteWhere(old(db.likes), LikeKey(userId, postId))
    ensures r.None? ==> db.likes == old(db.likes)
    ensures LikeOf(db.likes, userId, postId).None?
    ensures UniqueLikes(old(db.likes)) && r.Some? ==> |db.likes| == |old(db.likes)| - 1
  {
    r := LikeOf(db.likes, userId, postId);
    if r.None? {
      forall j | 0 <= j < |db.likes|
        ensures !LikeKey(userId, postId)(db.likes[j])
      {
        assert db.likes[j] in db.likes;
      }
      Tables.DeleteWhereNone(db.likes, LikeKey(userId, postId));
    } else if UniqueLikes(db.likes) {
      var i := DeleteExistingLike(db.likes, userId, postId);
    }
    db.likes := Tables.DeleteWhere(db.likes, LikeKey(userId, postId));
  }
}
