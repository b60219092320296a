/** The post service: the paged post listing, edits and deletion by the
    author, likes and comments with the post's denormalised counters, and
    the notifications they send. Each method is one service call; its
    transaction is atomic, so a failing step leaves every table as it was. */
module PostService {
  import opened Wrappers
  import opened Db
  import Tables

  /** The author as the listing selects it. */
  datatype AuthorInfo = AuthorInfo(id: nat, name: Option<string>, avatarUrl: Option<string>)

  function AuthorOf(users: seq<User>, id: nat): (r: Option<AuthorInfo>)
    ensures r.Some? <==> UserById(users, id).Some?
    ensures r.Some? ==> r.value.id == id && r.value.name == UserById(users, id).value.name
  {
    match UserById(users, id)
    case None => None
    case Some(u) => Some(AuthorInfo(u.id, u.name, u.avatarUrl))
  }

  /** A post as the listing returns it: the selected columns, the author,
      and whether the current user liked and favorited it. */
  datatype PostView = PostView(
    id: nat,
    title: string,
    content: Option<string>,
    createdAt: int,
    author: Option<AuthorInfo>,
    likesCount: int,
    commentsCount: int,
    favoritesCount: int,
    isLiked: bool,
    isFavorited: bool)

  /** `createPost`: a new post by `authorId` with a fresh id, the given
      title and content, no image, the default status and zero counters.
      Connecting a missing author fails and inserts nothing. */
  method CreatePost(db: Database, title: string, content: Option<string>, authorId: nat, now: int)
    returns (r: Result<Post, string>)
    modifies db`posts
    ensures r.Err? <==> UserById(db.users, authorId).None?
    ensures r.Err? ==> r.error == RecordNotFound && db.posts == old(db.posts)
    ensures r.Ok? ==>
      db.posts == old(db.posts) + [r.value]
      && (forall p :: p in old(db.posts) ==> p.id != r.value.id)
      && r.value.title == title && r.value.content == content && r.value.authorId == authorId
      && r.value.imageUrl.None? && r.value.status == DefaultPostStatus && r.value.deletedAt.None?
      && !r.value.isShowcase && r.value.createdAt == now
      && r.value.likesCount == 0 && r.value.favoritesCount == 0 && r.value.commentsCount == 0
  {
    if UserById(db.users, authorId).None? {
      return Err(RecordNotFound);
    }
    var ids := PostIds(db.posts);
    assert forall k :: 0 <= k < |db.posts| ==> db.posts[k].id == ids[k];
    var post := Post(FreshId(ids), title, content, None, authorId, DefaultPostStatus, None, false, 0, 0, 0, now);
    db.posts := db.posts + [post];
    r := Ok(post);
  }

  datatype PostsOptions = PostsOptions(
    page: Option<int>,
    limit: Option<int>,
    sortBy: Option<string>,
    currentUserId: Option<nat>,
    authorId: Option<nat>)

  datatype PostsPage = PostsPage(posts: seq<PostView>, totalCount: nat)

  /** An id option used as a JavaScript condition: present and not 0. */
  predicate Given(id: Option<nat>) {
    id.Some? && id.value != 0
  }

  /** The `where` of the listing: the author's posts when an author is given. */
  function ByAuthor(authorId: Option<nat>): Post -> bool {
    (p: Post) => !Given(authorId) || p.authorId == authorId.value
  }

  /** `popular` orders by `likesCount` descending, anything else by
      `createdAt` descending. */
  function OrderFor(sortBy: Option<string>): (Post, Post) -> bool {
    if sortBy == Some("popular") then (a: Post, b: Post) => a.likesCount >= b.likesCount
    else (a: Post, b: Post) => a.createdAt >= b.createdAt
  }

  lemma OrderForIsPreorder(sortBy: Option<string>)
    ensures Tables.TotalPreorder(OrderFor(sortBy))
  {
  }

  /** The listed posts in the order they are returned. */
  function OrderedPosts(posts: seq<Post>, authorId: Option<nat>, sortBy: Option<string>): (r: seq<Post>)
    ensures multiset(r) == multiset(Tables.Filter(posts, ByAuthor(authorId)))
    ensures |r| == Tables.Count(posts, ByAuthor(authorId))
    ensures Tables.SortedBy(r, OrderFor(sortBy))
  {
    OrderForIsPreorder(sortBy);
    Tables.SortBy(Tables.Filter(posts, ByAuthor(authorId)), OrderFor(sortBy))
  }

  function View(p: Post, users: seq<User>, likes: seq<Like>, favorites: seq<Favorite>, currentUserId: Option<nat>)
    : (r: PostView)
    ensures r.id == p.id && r.title == p.title && r.content == p.content && r.createdAt == p.createdAt
    ensures r.likesCount == p.likesCount && r.commentsCount == p.commentsCount && r.favoritesCount == p.favoritesCount
    ensures r.author == AuthorOf(users, p.authorId)
    ensures r.isLiked <==> Given(currentUserId) && LikeOf(likes, currentUserId.value, p.id).Some?
    ensures r.isFavorited <==> Given(currentUserId) && FavoriteOf(favorites, currentUserId.value, p.id).Some?
  {
    var liked := Given(currentUserId) && LikeOf(likes, currentUserId.value, p.id).Some?;
    var favorited := Given(currentUserId) && FavoriteOf(favorites, currentUserId.value, p.id).Some?;
    PostView(p.id, p.title, p.content, p.createdAt, AuthorOf(users, p.authorId),
             p.likesCount, p.commentsCount, p.favoritesCount, liked, favorited)
  }

  function Views(rows: seq<Post>, users: seq<User>, likes: seq<Like>, favorites: seq<Favorite>, currentUserId: Option<nat>)
    : (r: seq<PostView>)
    ensures |r| == |rows|
    ensures forall i :: 0 <= i < |rows| ==> r[i] == View(rows[i], users, likes, favorites, currentUserId)
  {
    if |rows| == 0 then []
    else [View(rows[0], users, likes, favorites, currentUserId)] + Views(rows[1..], users, likes, favorites, currentUserId)
  }

  /** `getAllPosts`: defaults page 1 and limit 10, `skip = (page - 1) * limit`.
      A negative skip makes the query fail; otherwise the posts are the
      `skip`/`limit` page of the ordered posts, read from the back when the
      limit is negative. */
  function GetAllPosts(posts: seq<Post>, users: seq<User>, likes: seq<Like>, favorites: seq<Favorite>,
                       opts: PostsOptions): (r: Result<PostsPage, string>)
    ensures var page := opts.page.GetOr(1);
      var limit := opts.limit.GetOr(10);
      var skip := Tables.Skip(page, limit);
      var ordered := OrderedPosts(posts, opts.authorId, opts.sortBy);
      (r.Err? <==> skip < 0)
      && (r.Ok? ==>
            r.value.totalCount == Tables.Count(posts, ByAuthor(opts.authorId))
            && Tables.IsPage(r.value.posts, Views(ordered, users, likes, favorites, opts.currentUserId), skip, limit))
  {
    var page := opts.page.GetOr(1);
    var limit := opts.limit.GetOr(10);
    var skip := Tables.Skip(page, limit);
    if skip < 0 then Err(InvalidPaging)
    else
      var ordered := OrderedPosts(posts, opts.authorId, opts.sortBy);
      var window := Tables.Window(ordered, skip, limit);
      var listed := Views(window, users, likes, favorites, opts.currentUserId);
      Tables.PageOfMapped(listed, Views(ordered, users, likes, favorites, opts.currentUserId), ordered, skip, limit);
      Ok(PostsPage(listed, |ordered|))
  }

  /** `getPostById`: the post with its author and the current user's like
      and favorite flags, or `null` when no post has the id. */
  function GetPostById(posts: seq<Post>, users: seq<User>, likes: seq<Like>, favorites: seq<Favorite>,
                       postId: int, currentUserId: Option<nat>): (r: Option<PostView>)
    ensures r.None? <==> forall p :: p in posts ==> p.id != postId
    ensures r.Some? ==> exists p :: p in posts && p.id == postId && r.value == View(p, users, likes, favorites, currentUserId)
    ensures r.Some? ==>
      && r.value.id == postId
      && (r.value.isLiked <==> Given(currentUserId) && LikeOf(likes, currentUserId.value, postId).Some?)
      && (r.value.isFavorited <==> Given(currentUserId) && FavoriteOf(favorites, currentUserId.value, postId).Some?)
  {
    match PostById(posts, postId)
    case None => None
    case Some(p) => Some(View(p, users, likes, favorites, currentUserId))
  }

  /** A listed post belongs to the requested author. */
  lemma ListedPostsAreTheAuthors(posts: seq<Post>, users: seq<User>, likes: seq<Like>, favorites: seq<Favorite>,
                                 opts: PostsOptions, i: nat)
    requires Given(opts.authorId)
    requires GetAllPosts(posts, users, likes, favorites, opts).Ok?
    requires i < |GetAllPosts(posts, users, likes, favorites, opts).value.posts|
    ensures exists p :: p in posts && p.authorId == opts.authorId.value
                && GetAllPosts(posts, users, likes, favorites, opts).value.posts[i].id == p.id
  {
    var page := opts.page.GetOr(1);
    var limit := opts.limit.GetOr(10);
    var skip := Tables.Skip(page, limit);
    var ordered := OrderedPosts(posts, opts.authorId, opts.sortBy);
    var listed := GetAllPosts(posts, users, likes, favorites, opts).value.posts;
    var views := Views(ordered, users, likes, favorites, opts.currentUserId);
    var k := Tables.PageIndex(listed, views, skip, limit, i);
    var p := ordered[k];
    assert listed[i].id == p.id;
    assert p in multiset(Tables.Filter(posts, ByAuthor(opts.authorId)));
    assert p in Tables.Filter(posts, ByAuthor(opts.authorId));
  }

  /** The row a post edit leaves: only the title and content change, each
      only when given. */
  function Edited(p: Post, title: Option<string>, content: Option<string>): (r: Post)
    ensures r == p.(title := r.title, content := r.content)
    ensures r.title == title.GetOr(p.title)
    ensures content.Some? ==> r.content == content
    ensures content.None? ==> r.content == p.content
  {
    p.(title := title.GetOr(p.title), content := if content.Some? then content else p.content)
  }

  /** `updatePost`: `null` for a missing post, `Forbidden` for anyone but
      the author, otherwise the edited post. */
  method UpdatePost(db: Database, postId: int, title: Option<string>, content: Option<string>, userId: nat)
    returns (r: Result<Option<Post>, string>)
    modifies db`posts
    ensures PostById(old(db.posts), postId).None? ==> r == Ok(None) && db.posts == old(db.posts)
    ensures PostById(old(db.posts), postId).Some? && PostById(old(db.posts), postId).value.authorId != userId ==>
      r == Err("Forbidden: You can only update your own posts") && db.posts == old(db.posts)
    ensures PostById(old(db.posts), postId).Some? && PostById(old(db.posts), postId).value.authorId == userId ==>
      r == Ok(Some(Edited(PostById(old(db.posts), postId).value, title, content)))
      && db.posts == Tables.UpdateWhere(old(db.posts), PostWithId(postId), (p: Post) => Edited(p, title, content))
  {
    var found := PostById(db.posts, postId);
    if found.None? {
      return Ok(None);
    }
    if found.value.authorId != userId {
      return Err("Forbidden: You can only update your own posts");
    }
    db.posts := Tables.UpdateWhere(db.posts, PostWithId(postId), (p: Post) => Edited(p, title, content));
    r := Ok(Some(Edited(found.value, title, content)));
  }

  /** `deletePost`: `null` for a missing post, `Forbidden` for anyone but the
      author, otherwise the post is removed and returned. */
  method DeletePost(db: Database, postId: int, userId: nat) returns (r: Result<Option<Post>, string>)
    modifies db`posts
    ensures PostById(old(db.posts), postId).None? ==> r == Ok(None) && db.posts == old(db.posts)
    ensures PostById(old(db.posts), postId).Some? && PostById(old(db.posts), postId).value.authorId != userId ==>
      r == Err("Forbidden: You can only delete your own posts") && db.posts == old(db.posts)
    ensures PostById(old(db.posts), postId).Some? && PostById(old(db.posts), postId).value.authorId == userId ==>
      r == Ok(PostById(old(db.posts), postId))
      && db.posts == Tables.DeleteWhere(old(db.posts), PostWithId(postId))
      && forall p :: p in db.posts ==> p.id != postId
  {
    var found := PostById(db.posts, postId);
    if found.None? {
      return Ok(None);
    }
    if found.value.authorId != userId {
      return Err("Forbidden: You can only delete your own posts");
    }
    db.posts := Tables.DeleteWhere(db.posts, PostWithId(postId));
    r := Ok(found);
  }

  /** The rows a like or comment insert needs: the referenced user and post. */
  predicate References(db_users: seq<User>, db_posts: seq<Post>, userId: nat, postId: nat) {
    UserById(db_users, userId).Some? && PostById(db_posts, postId).Some?
  }

  /** `likePost` as written: an existing like is returned unchanged;
      otherwise the like is added and `likesCount` incremented in one
      transaction, and the author (unless it is the liker) is notified with
      a create that names the sender column `actorId`, which fails and is
      swallowed. */
  method LikePost(db: Database, userId: nat, postId: nat, now: int) returns (r: Result<Like, string>)
    modifies db`likes, db`posts, db`notifications
    ensures LikeOf(old(db.likes), userId, postId).Some? ==>
      r == Ok(LikeOf(old(db.likes), userId, postId).value)
      && db.likes == old(db.likes) && db.posts == old(db.posts) && db.notifications == old(db.notifications)
    ensures LikeOf(old(db.likes), userId, postId).None? && !References(db.users, old(db.posts), userId, postId) ==>
      r == Err(ForeignKeyFailed)
      && db.likes == old(db.likes) && db.posts == old(db.posts) && db.notifications == old(db.notifications)
    ensures LikeOf(old(db.likes), userId, postId).None? && References(db.users, old(db.posts), userId, postId) ==>
      r == Ok(Like(userId, postId, now))
      && db.likes == old(db.likes) + [Like(userId, postId, now)]
      && db.posts == BumpCounter(old(db.posts), postId, Likes, 1)
      && db.notifications == old(db.notifications)
    ensures UniqueLikes(old(db.likes)) ==> UniqueLikes(db.likes)
    ensures forall k, c :: 0 <= k < |old(db.posts)| ==>
      Drift(db.posts[k], c, db.likes, db.favorites, db.comments)
      == Drift(old(db.posts)[k], c, old(db.likes), db.favorites, db.comments)
  {
    var existing := LikeOf(db.likes, userId, postId);
    if existing.Some? {
      return Ok(existing.value);
    }
    if !References(db.users, db.posts, userId, postId) {
      return Err(ForeignKeyFailed);
    }
    var like := Like(userId, postId, now);
    if UniqueLikes(db.likes) {
      AddLikeKeepsUnique(db.likes, like);
    }
    LikeAddedKeepsDrift(db.posts, db.likes, db.favorites, db.comments, like);
    db.likes := db.likes + [like];
    var post := PostById(db.posts, postId).value;
    db.posts := BumpCounter(db.posts, postId, Likes, 1);
    if post.authorId != userId {
      var note := NotificationData(post.authorId, ActorIdColumn, userId, Some(postId), None, LikeNote);
      ActorIdCreateIsDropped(db.notifications, note, now);
      db.notifications := NotifyOrKeep(db.notifications, note, now);
    }
    r := Ok(like);
  }

  /** `unlikePost`: removes the (user, post) like if there is one, always
      returns `null`, and leaves `likesCount` alone. */
  method UnlikePost(db: Database, userId: nat, postId: nat) returns (r: Option<Like>)
    modifies db`likes
    ensures r.None?
    ensures db.likes == Tables.DeleteWhere(old(db.likes), LikeKey(userId, postId))
    ensures LikeOf(db.likes, userId, postId).None?
    ensures LikeOf(old(db.likes), userId, postId).None? ==> db.likes == old(db.likes)
  {
    var existing := LikeOf(db.likes, userId, postId);
    if existing.Some? {
      db.likes := Tables.DeleteWhere(db.likes, LikeKey(userId, postId));
    } else {
      forall j | 0 <= j < |db.likes|
        ensures !LikeKey(userId, postId)(db.likes[j])
      {
        assert db.likes[j] in db.likes;
      }
      Tables.DeleteWhereNone(db.likes, LikeKey(userId, postId));
    }
    r := None;
  }

  /** Unliking does not decrement `likesCount`: each unlike of an existing
      like moves the post's stored count one further above its like rows. */
  lemma UnlikeLeavesCountStale(posts: seq<Post>, likes: seq<Like>, favorites: seq<Favorite>,
                               comments: seq<Comment>, userId: nat, postId: nat)
    requires UniqueLikes(likes) && LikeOf(likes, userId, postId).Some?
    ensures var likes' := Tables.DeleteWhere(likes, LikeKey(userId, postId));
      forall k :: 0 <= k < |posts| && posts[k].id == postId ==>
        Drift(posts[k], Likes, likes', favorites, comments) == Drift(posts[k], Likes, likes, favorites, comments) + 1
  {
    var i := DeleteExistingLike(likes, userId, postId);
    Tables.CountRemoveAt(likes, i, LikeOnPost(postId));
  }

  /** The notification type of a comment: `REPLY` when `parentId` is given
      and not 0, `COMMENT` otherwise. */
  function CommentKind(parentId: Option<nat>): (r: NotificationType)
    ensures r == ReplyNote <==> parentId.Some? && parentId.value != 0
    ensures r == ReplyNote || r == CommentNote
  {
    if parentId.Some? && parentId.value != 0 then ReplyNote else CommentNote
  }

  /** The rows a comment insert references: author, post and, when given,
      the parent comment. */
  predicate CommentReferences(users: seq<User>, posts: seq<Post>, comments: seq<Comment>,
                              authorId: nat, postId: nat, parentId: Option<nat>) {
    References(users, posts, authorId, postId) && (parentId.Some? ==> CommentById(comments, parentId.value).Some?)
  }

  /** `createComment` as written: the comment is added and `commentsCount`
      incremented in one transaction; the author of the post (unless it is
      the commenter) is notified with a create that names `actorId`, which
      fails and is swallowed. */
  method CreateComment(db: Database, postId: nat, text: string, authorId: nat, parentId: Option<nat>, now: int)
    returns (r: Result<Comment, string>)
    modifies db`comments, db`posts, db`notifications
    ensures !CommentReferences(db.users, old(db.posts), old(db.comments), authorId, postId, parentId) ==>
      r == Err(ForeignKeyFailed)
      && db.comments == old(db.comments) && db.posts == old(db.posts) && db.notifications == old(db.notifications)
    ensures CommentReferences(db.users, old(db.posts), old(db.comments), authorId, postId, parentId) ==>
      r == Ok(Comment(FreshId(CommentIds(old(db.comments))), text, postId, authorId, parentId, now))
      && db.comments == old(db.comments) + [r.value]
      && db.posts == BumpCounter(old(db.posts), postId, Comments, 1)
      && db.notifications == old(db.notifications)
    ensures forall c :: c in old(db.comments) ==> r.Ok? ==> c.id != r.value.id
    ensures forall k, c :: 0 <= k < |old(db.posts)| ==>
      Drift(db.posts[k], c, db.likes, db.favorites, db.comments)
      == Drift(old(db.posts)[k], c, db.likes, db.favorites, old(db.comments))
  {
    if !CommentReferences(db.users, db.posts, db.comments, authorId, postId, parentId) {
      return Err(ForeignKeyFailed);
    }
    var ids := CommentIds(db.comments);
    var comment := Comment(FreshId(ids), text, postId, authorId, parentId, now);
    forall c | c in db.comments
      ensures c.id != comment.id
    {
      var k :| 0 <= k < |db.comments| && db.comments[k] == c;
      assert ids[k] == c.id;
    }
    CommentAddedKeepsDrift(db.posts, db.likes, db.favorites, db.comments, comment);
    db.comments := db.comments + [comment];
    var post := PostById(db.posts, postId).value;
    db.posts := BumpCounter(db.posts, postId, Comments, 1);
    if post.authorId != authorId {
      var note := NotificationData(post.authorId, ActorIdColumn, authorId, Some(postId), Some(comment.id),
                                   CommentKind(parentId));
      ActorIdCreateIsDropped(db.notifications, note, now);
      db.notifications := NotifyOrKeep(db.notifications, note, now);
    }
    r := Ok(comment);
  }

  /** A comment as `getCommentsByPostId` returns it. */
  datatype CommentView = CommentView(
    id: nat,
    text: string,
    createdAt: int,
    parentId: Option<nat>,
    author: Option<AuthorInfo>)

  function OldestFirst(): (Comment, Comment) -> bool {
    (a: Comment, b: Comment) => a.createdAt <= b.createdAt
  }

  lemma OldestFirstIsPreorder()
    ensures Tables.TotalPreorder(OldestFirst())
  {
  }

  /** The comments of a post, oldest first. */
  function PostComments(comments: seq<Comment>, postId: nat): (r: seq<Comment>)
    ensures multiset(r) == multiset(Tables.Filter(comments, CommentOnPost(postId)))
    ensures |r| == CommentCount(comments, postId)
    ensures Tables.SortedBy(r, OldestFirst())
  {
    OldestFirstIsPreorder();
    Tables.SortBy(Tables.Filter(comments, CommentOnPost(postId)), OldestFirst())
  }

  function CommentViews(rows: seq<Comment>, users: seq<User>): (r: seq<CommentView>)
    ensures |r| == |rows|
    ensures forall i :: 0 <= i < |rows| ==>
      r[i] == CommentView(rows[i].id, rows[i].text, rows[i].createdAt, rows[i].parentId, AuthorOf(users, rows[i].authorId))
  {
    if |rows| == 0 then []
    else
      var c := rows[0];
      [CommentView(c.id, c.text, c.createdAt, c.parentId, AuthorOf(users, c.authorId))] + CommentViews(rows[1..], users)
  }

  /** Every view of the post's comments is the view of a comment row
      whose `postId` is the post. */
  lemma PostCommentViewsSound(comments: seq<Comment>, users: seq<User>, postId: nat)
    ensures var views := CommentViews(PostComments(comments, postId), users);
      forall i :: 0 <= i < |views| ==>
        exists c :: c in comments && c.postId == postId
          && views[i] == CommentView(c.id, c.text, c.createdAt, c.parentId, AuthorOf(users, c.authorId))
  {
    var rows := PostComments(comments, postId);
    var views := CommentViews(rows, users);
    var onPost := Tables.Filter(comments, CommentOnPost(postId));
    forall i | 0 <= i < |views|
      ensures exists c :: c in comments && c.postId == postId &&
                views[i] == CommentView(c.id, c.text, c.createdAt, c.parentId, AuthorOf(users, c.authorId))
    {
      assert rows[i] in multiset(onPost);
    }
  }

  /** Every comment row of the post has its view among the post's views. */
  lemma PostCommentViewsComplete(comments: seq<Comment>, users: seq<User>, postId: nat)
    ensures var views := CommentViews(PostComments(comments, postId), users);
      forall c :: c in comments && c.postId == postId ==>
        CommentView(c.id, c.text, c.createdAt, c.parentId, AuthorOf(users, c.authorId)) in views
  {
    var rows := PostComments(comments, postId);
    var views := CommentViews(rows, users);
    var onPost := Tables.Filter(comments, CommentOnPost(postId));
    forall c | c in comments && c.postId == postId
      ensures CommentView(c.id, c.text, c.createdAt, c.parentId, AuthorOf(users, c.authorId)) in views
    {
      assert c in multiset(rows) by { assert c in onPost; }
      var k :| 0 <= k < |rows| && rows[k] == c;
      assert views[k] in views;
    }
  }

  /** `getCommentsByPostId`: every comment of the post, oldest first, each
      with its author. */
  function GetCommentsByPostId(comments: seq<Comment>, users: seq<User>, postId: nat): (r: seq<CommentView>)
    ensures |r| == CommentCount(comments, postId)
    ensures forall i, j :: 0 <= i < j < |r| ==> r[i].createdAt <= r[j].createdAt
    ensures forall i :: 0 <= i < |r| ==>
      exists c :: c in comments && c.postId == postId
        && r[i] == CommentView(c.id, c.text, c.createdAt, c.parentId, AuthorOf(users, c.authorId))
    ensures forall c :: c in comments && c.postId == postId ==>
      CommentView(c.id, c.text, c.createdAt, c.parentId, AuthorOf(users, c.authorId)) in r
  {
    var rows := PostComments(comments, postId);
    var views := CommentViews(rows, users);
    PostCommentViewsSound(comments, users, postId);
    PostCommentViewsComplete(comments, users, postId);
    forall i, j | 0 <= i < j < |views|
      ensures views[i].createdAt <= views[j].createdAt
    {
      assert OldestFirst()(rows[i], rows[j]);
    }
    views
  }

  /** The refusal `deleteComment` gives anyone but the comment's author. */
  const NotYourComment := "Forbidden: You can only delete your own comments"

  /** `deleteComment`: `null` for a missing comment, `Forbidden` for anyone
      but its author; otherwise the comment is removed and `commentsCount`
      decremented in one transaction (which fails as a whole if the post
      is gone). Replies keep their `parentId`. */
  method DeleteComment(db: Database, commentId: int, userId: nat) returns (r: Result<Option<Comment>, string>)
    modifies db`comments, db`posts
    ensures CommentById(old(db.comments), commentId).None? ==>
      r == Ok(None) && db.comments == old(db.comments) && db.posts == old(db.posts)
    ensures CommentById(old(db.comments), commentId).Some? && CommentById(old(db.comments), commentId).value.authorId != userId ==>
      r == Err(NotYourComment)
      && db.comments == old(db.comments) && db.posts == old(db.posts)
    ensures r.Ok? && r.value.Some? ==>
      r.value == CommentById(old(db.comments), commentId) && r.value.value.authorId == userId
      && db.comments == Tables.DeleteWhere(old(db.comments), CommentWithId(commentId))
      && db.posts == BumpCounter(old(db.posts), r.value.value.postId, Comments, -1)
    ensures r.Err? ==> db.comments == old(db.comments) && db.posts == old(db.posts)
    ensures CommentById(old(db.comments), commentId).Some? && CommentById(old(db.comments), commentId).value.authorId == userId ==>
      (r.Ok? <==> PostById(old(db.posts), CommentById(old(db.comments), commentId).value.postId).Some?)
  {
    var found := CommentById(db.comments, commentId);
    if found.None? {
      return Ok(None);
    }
    var comment := found.value;
    if comment.authorId != userId {
      return Err(NotYourComment);
    }
    if PostById(db.posts, comment.postId).None? {
      return Err(RecordNotFound);
    }
    db.comments := Tables.DeleteWhere(db.comments, CommentWithId(commentId));
    db.posts := BumpCounter(db.posts, comment.postId, Comments, -1);
    r := Ok(Some(comment));
  }
}
