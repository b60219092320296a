/** The backend's database as in-memory tables. Each Prisma model is a row
    datatype; the tables are sequence fields of one `Database` object, in
    insertion order, which the service methods reassign. Autoincrement ids
    are the largest id in use plus one. */
module Db {
  import opened Wrappers
  import Tables

  /** A user row. `role` is kept as the text Prisma returns (`USER`,
      `ADMIN`, `MODERATOR`); the password is the stored hash. */
  datatype User = User(
    id: nat,
    email: string,
    password: string,
    name: Option<string>,
    avatarUrl: Option<string>,
    role: string,
    isEmailVerified: bool,
    createdAt: int)

  /** A user as the services return it: every column but `password`. */
  datatype PublicUser = PublicUser(
    id: nat,
    email: string,
    name: Option<string>,
    avatarUrl: Option<string>,
    role: string,
    isEmailVerified: bool,
    createdAt: int)

  function WithoutPassword(u: User): (r: PublicUser)
    ensures r.id == u.id && r.email == u.email && r.name == u.name && r.avatarUrl == u.avatarUrl
    ensures r.role == u.role && r.isEmailVerified == u.isEmailVerified && r.createdAt == u.createdAt
  {
    PublicUser(u.id, u.email, u.name, u.avatarUrl, u.role, u.isEmailVerified, u.createdAt)
  }

  /** The status a post row gets when its insert names none. */
  const DefaultPostStatus := "PUBLISHED"

  /** A post row with its denormalised counters. `status` is the name of
      its `PostStatus` value as Prisma returns it (`DELETED` once an
      administrator removes it). */
  datatype Post = Post(
    id: nat,
    title: string,
    content: Option<string>,
    imageUrl: Option<string>,
    authorId: nat,
    status: string,
    deletedAt: Option<int>,
    isShowcase: bool,
    likesCount: int,
    favoritesCount: int,
    commentsCount: int,
    createdAt: int)

  /** Likes and favorites are keyed by the (user, post) pair. */
  datatype Like = Like(userId: nat, postId: nat, createdAt: int)
  datatype Favorite = Favorite(userId: nat, postId: nat, createdAt: int)

  datatype Comment = Comment(
    id: nat,
    text: string,
    postId: nat,
    authorId: nat,
    parentId: Option<nat>,
    createdAt: int)

  datatype NotificationType = LikeNote | CommentNote | ReplyNote | FavoriteNote | FollowNote

  datatype Notification = Notification(
    id: nat,
    recipientId: nat,
    senderId: Option<nat>,
    postId: Option<nat>,
    commentId: Option<nat>,
    kind: NotificationType,
    isRead: bool,
    createdAt: int)

  /** A row of the `Tag`, `PostTag` or `FoodTag` table. */
  datatype Tag = Tag(id: nat, name: string, isFixed: bool)

  /** A food showcase and the ids of the food tags it is linked to. */
  datatype Showcase = Showcase(
    id: nat,
    title: Option<string>,
    description: Option<string>,
    imageUrl: string,
    tagIds: set<nat>,
    createdAt: int)

  /** An id larger than every id in `ids` (autoincrement). */
  function FreshId(ids: seq<nat>): (r: nat)
    ensures forall k :: 0 <= k < |ids| ==> ids[k] < r
    ensures r > 0
  {
    if |ids| == 0 then 1
    else
      var m := FreshId(ids[1..]);
      if ids[0] >= m then ids[0] + 1 else m
  }

  function PostIds(t: seq<Post>): (r: seq<nat>)
    ensures |r| == |t| && forall k :: 0 <= k < |t| ==> r[k] == t[k].id
  {
    if |t| == 0 then [] else [t[0].id] + PostIds(t[1..])
  }

  function CommentIds(t: seq<Comment>): (r: seq<nat>)
    ensures |r| == |t| && forall k :: 0 <= k < |t| ==> r[k] == t[k].id
  {
    if |t| == 0 then [] else [t[0].id] + CommentIds(t[1..])
  }

  function NotificationIds(t: seq<Notification>): (r: seq<nat>)
    ensures |r| == |t| && forall k :: 0 <= k < |t| ==> r[k] == t[k].id
  {
    if |t| == 0 then [] else [t[0].id] + NotificationIds(t[1..])
  }

  function TagIds(t: seq<Tag>): (r: seq<nat>)
    ensures |r| == |t| && forall k :: 0 <= k < |t| ==> r[k] == t[k].id
  {
    if |t| == 0 then [] else [t[0].id] + TagIds(t[1..])
  }

  function ShowcaseIds(t: seq<Showcase>): (r: seq<nat>)
    ensures |r| == |t| && forall k :: 0 <= k < |t| ==> r[k] == t[k].id
  {
    if |t| == 0 then [] else [t[0].id] + ShowcaseIds(t[1..])
  }

  function UserIds(t: seq<User>): (r: seq<nat>)
    ensures |r| == |t| && forall k :: 0 <= k < |t| ==> r[k] == t[k].id
  {
    if |t| == 0 then [] else [t[0].id] + UserIds(t[1..])
  }

  function PostById(t: seq<Post>, id: int): (r: Option<Post>)
    ensures r.Some? ==> r.value in t && r.value.id == id
    ensures r.None? <==> forall p :: p in t ==> p.id != id
  {
    Tables.FindFirst(t, PostWithId(id))
  }

  function PostWithId(id: int): Post -> bool {
    (p: Post) => p.id == id
  }

  function CommentById(t: seq<Comment>, id: int): (r: Option<Comment>)
    ensures r.Some? ==> r.value in t && r.value.id == id
    ensures r.None? <==> forall c :: c in t ==> c.id != id
  {
    Tables.FindFirst(t, CommentWithId(id))
  }

  function UserById(t: seq<User>, id: int): (r: Option<User>)
    ensures r.Some? ==> r.value in t && r.value.id == id
    ensures r.None? <==> forall u :: u in t ==> u.id != id
  {
    Tables.FindFirst(t, UserWithId(id))
  }

  function UserWithId(id: int): User -> bool {
    (u: User) => u.id == id
  }

  function UserByEmail(t: seq<User>, email: string): (r: Option<User>)
    ensures r.Some? ==> r.value in t && r.value.email == email
    ensures r.None? <==> forall u :: u in t ==> u.email != email
  {
    Tables.FindFirst(t, (u: User) => u.email == email)
  }

  /** The composite key of a like or a favorite: the (user, post) pair. */
  function LikeKey(userId: nat, postId: nat): Like -> bool {
    (l: Like) => l.userId == userId && l.postId == postId
  }

  function FavoriteKey(userId: nat, postId: nat): Favorite -> bool {
    (f: Favorite) => f.userId == userId && f.postId == postId
  }

  function CommentWithId(id: int): Comment -> bool {
    (c: Comment) => c.id == id
  }

  function LikeOf(t: seq<Like>, userId: nat, postId: nat): (r: Option<Like>)
    ensures r.Some? ==> r.value in t && r.value.userId == userId && r.value.postId == postId
    ensures r.None? <==> forall l :: l in t ==> !(l.userId == userId && l.postId == postId)
  {
    Tables.FindFirst(t, LikeKey(userId, postId))
  }

  function FavoriteOf(t: seq<Favorite>, userId: nat, postId: nat): (r: Option<Favorite>)
    ensures r.Some? ==> r.value in t && r.value.userId == userId && r.value.postId == postId
    ensures r.None? <==> forall f :: f in t ==> !(f.userId == userId && f.postId == postId)
  {
    Tables.FindFirst(t, FavoriteKey(userId, postId))
  }

  /** The (user, post) key is unique, as the composite key demands. */
  predicate UniqueLikes(t: seq<Like>) {
    forall i, j :: 0 <= i < j < |t| ==> !(t[i].userId == t[j].userId && t[i].postId == t[j].postId)
  }

  /** Adding a like for a (user, post) pair that has none keeps the key
      unique. */
  lemma AddLikeKeepsUnique(t: seq<Like>, like: Like)
    requires UniqueLikes(t) && LikeOf(t, like.userId, like.postId).None?
    ensures UniqueLikes(t + [like])
  {
    var t' := t + [like];
    forall i, j | 0 <= i < j < |t'|
      ensures !(t'[i].userId == t'[j].userId && t'[i].postId == t'[j].postId)
    {
      assert t'[i] == t[i] && t[i] in t;
    }
  }

  predicate UniqueFavorites(t: seq<Favorite>) {
    forall i, j :: 0 <= i < j < |t| ==> !(t[i].userId == t[j].userId && t[i].postId == t[j].postId)
  }

  /** The rows of post `postId`, as `where: { postId }` filters. */
  function LikeOnPost(postId: nat): Like -> bool {
    (l: Like) => l.postId == postId
  }

  function FavoriteOnPost(postId: nat): Favorite -> bool {
    (f: Favorite) => f.postId == postId
  }

  function CommentOnPost(postId: nat): Comment -> bool {
    (c: Comment) => c.postId == postId
  }

  /** Number of like rows of post `postId`. */
  function LikeCount(t: seq<Like>, postId: nat): nat {
    Tables.Count(t, LikeOnPost(postId))
  }

  function FavoriteCount(t: seq<Favorite>, postId: nat): nat {
    Tables.Count(t, FavoriteOnPost(postId))
  }

  function CommentCount(t: seq<Comment>, postId: nat): nat {
    Tables.Count(t, CommentOnPost(postId))
  }

  /** `post.update({ where: { id }, data: { <counter>: { increment: delta } } })`
      applied to one of the three counters. */
  datatype Counter = Likes | Favorites | Comments

  function CounterOf(p: Post, c: Counter): int {
    match c
    case Likes => p.likesCount
    case Favorites => p.favoritesCount
    case Comments => p.commentsCount
  }

  function BumpPost(p: Post, c: Counter, delta: int): (r: Post)
    ensures CounterOf(r, c) == CounterOf(p, c) + delta
    ensures forall d :: d != c ==> CounterOf(r, d) == CounterOf(p, d)
    ensures r.id == p.id && r.authorId == p.authorId
  {
    match c
    case Likes => p.(likesCount := p.likesCount + delta)
    case Favorites => p.(favoritesCount := p.favoritesCount + delta)
    case Comments => p.(commentsCount := p.commentsCount + delta)
  }

  function BumpCounter(t: seq<Post>, postId: nat, c: Counter, delta: int): (r: seq<Post>)
    ensures |r| == |t|
    ensures forall k :: 0 <= k < |t| ==>
      r[k] == (if t[k].id == postId then BumpPost(t[k], c, delta) else t[k])
  {
    Tables.UpdateWhere(t, (p: Post) => p.id == postId, (p: Post) => BumpPost(p, c, delta))
  }

  /** Prisma's error codes for a failed foreign-key check and for a record
      that an update or delete requires but cannot find. */
  const ForeignKeyFailed := "P2003"
  const RecordNotFound := "P2025"

  /** The rejection of a query whose `skip` is negative. */
  const InvalidPaging := "Invalid value for skip"

  /** No two rows share an id. */
  predicate UniqueIds(ids: seq<nat>) {
    forall i, j :: 0 <= i < j < |ids| ==> ids[i] != ids[j]
  }

  /** The rows a counter of post `postId` is meant to count. */
  function RowCount(c: Counter, likes: seq<Like>, favorites: seq<Favorite>, comments: seq<Comment>, postId: nat): nat {
    match c
    case Likes => LikeCount(likes, postId)
    case Favorites => FavoriteCount(favorites, postId)
    case Comments => CommentCount(comments, postId)
  }

  /** How far a post's stored counter is from the number of rows it counts;
      an operation that keeps every drift keeps every counter exact. */
  function Drift(p: Post, c: Counter, likes: seq<Like>, favorites: seq<Favorite>, comments: seq<Comment>): int {
    CounterOf(p, c) - RowCount(c, likes, favorites, comments, p.id)
  }

  /** Adding a like and incrementing its post's `likesCount` keeps every
      drift of every post. */
  lemma LikeAddedKeepsDrift(posts: seq<Post>, likes: seq<Like>, favorites: seq<Favorite>,
                            comments: seq<Comment>, l: Like)
    ensures var posts' := BumpCounter(posts, l.postId, Likes, 1);
      forall k, c :: 0 <= k < |posts| ==>
        Drift(posts'[k], c, likes + [l], favorites, comments) == Drift(posts[k], c, likes, favorites, comments)
  {
    forall k | 0 <= k < |posts| {
      Tables.CountSnoc(likes, l, LikeOnPost(posts[k].id));
    }
  }

  lemma FavoriteAddedKeepsDrift(posts: seq<Post>, likes: seq<Like>, favorites: seq<Favorite>,
                                comments: seq<Comment>, f: Favorite)
    ensures var posts' := BumpCounter(posts, f.postId, Favorites, 1);
      forall k, c :: 0 <= k < |posts| ==>
        Drift(posts'[k], c, likes, favorites + [f], comments) == Drift(posts[k], c, likes, favorites, comments)
  {
    forall k | 0 <= k < |posts| {
      Tables.CountSnoc(favorites, f, FavoriteOnPost(posts[k].id));
    }
  }

  lemma CommentAddedKeepsDrift(posts: seq<Post>, likes: seq<Like>, favorites: seq<Favorite>,
                               comments: seq<Comment>, cm: Comment)
    ensures var posts' := BumpCounter(posts, cm.postId, Comments, 1);
      forall k, c :: 0 <= k < |posts| ==>
        Drift(posts'[k], c, likes, favorites, comments + [cm]) == Drift(posts[k], c, likes, favorites, comments)
  {
    forall k | 0 <= k < |posts| {
      Tables.CountSnoc(comments, cm, CommentOnPost(posts[k].id));
    }
  }

  /** With unique keys, deleting an existing (user, post) like removes just
      that row. */
  lemma DeleteExistingLike(t: seq<Like>, userId: nat, postId: nat) returns (i: nat)
    requires UniqueLikes(t) && LikeOf(t, userId, postId).Some?
    ensures i < |t| && t[i] == LikeOf(t, userId, postId).value
    ensures Tables.DeleteWhere(t, LikeKey(userId, postId)) == t[..i] + t[i + 1..]
  {
    var l := LikeOf(t, userId, postId).value;
    i :| 0 <= i < |t| && t[i] == l;
    Tables.DeleteWhereSingle(t, LikeKey(userId, postId), i);
  }

  lemma DeleteExistingFavorite(t: seq<Favorite>, userId: nat, postId: nat) returns (i: nat)
    requires UniqueFavorites(t) && FavoriteOf(t, userId, postId).Some?
    ensures i < |t| && t[i] == FavoriteOf(t, userId, postId).value
    ensures Tables.DeleteWhere(t, FavoriteKey(userId, postId)) == t[..i] + t[i + 1..]
  {
    var f := FavoriteOf(t, userId, postId).value;
    i :| 0 <= i < |t| && t[i] == f;
    Tables.DeleteWhereSingle(t, FavoriteKey(userId, postId), i);
  }

  lemma DeleteExistingComment(t: seq<Comment>, id: nat) returns (i: nat)
    requires UniqueIds(CommentIds(t)) && CommentById(t, id).Some?
    ensures i < |t| && t[i] == CommentById(t, id).value
    ensures Tables.DeleteWhere(t, CommentWithId(id)) == t[..i] + t[i + 1..]
  {
    var c := CommentById(t, id).value;
    i :| 0 <= i < |t| && t[i] == c;
    var ids := CommentIds(t);
    forall j | 0 <= j < |t| && j != i
      ensures !CommentWithId(id)(t[j])
    {
      assert ids[j] == t[j].id && ids[i] == t[i].id;
    }
    Tables.DeleteWhereSingle(t, CommentWithId(id), i);
  }

  /** Removing an existing favorite and decrementing its post's
      `favoritesCount` keeps every drift of every post. */
  lemma FavoriteRemovedKeepsDrift(posts: seq<Post>, likes: seq<Like>, favorites: seq<Favorite>,
                                  comments: seq<Comment>, userId: nat, postId: nat)
    requires UniqueFavorites(favorites) && FavoriteOf(favorites, userId, postId).Some?
    ensures var posts' := BumpCounter(posts, postId, Favorites, -1);
      var favorites' := Tables.DeleteWhere(favorites, FavoriteKey(userId, postId));
      forall k, c :: 0 <= k < |posts| ==>
        Drift(posts'[k], c, likes, favorites', comments) == Drift(posts[k], c, likes, favorites, comments)
  {
    var i := DeleteExistingFavorite(favorites, userId, postId);
    forall k | 0 <= k < |posts| {
      Tables.CountRemoveAt(favorites, i, FavoriteOnPost(posts[k].id));
    }
  }

  /** Removing an existing comment and decrementing its post's
      `commentsCount` keeps every drift of every post. */
  lemma CommentRemovedKeepsDrift(posts: seq<Post>, likes: seq<Like>, favorites: seq<Favorite>,
                                 comments: seq<Comment>, id: nat)
    requires UniqueIds(CommentIds(comments)) && CommentById(comments, id).Some?
    ensures var posts' := BumpCounter(posts, CommentById(comments, id).value.postId, Comments, -1);
      var comments' := Tables.DeleteWhere(comments, CommentWithId(id));
      forall k, c :: 0 <= k < |posts| ==>
        Drift(posts'[k], c, likes, favorites, comments') == Drift(posts[k], c, likes, favorites, comments)
  {
    var i := DeleteExistingComment(comments, id);
    CommentRemovedAtKeepsDrift(posts, likes, favorites, comments, i);
  }

  lemma CommentRemovedAtKeepsDrift(posts: seq<Post>, likes: seq<Like>, favorites: seq<Favorite>,
                                   comments: seq<Comment>, i: nat)
    requires i < |comments|
    ensures var posts' := BumpCounter(posts, comments[i].postId, Comments, -1);
      var comments' := comments[..i] + comments[i + 1..];
      forall k, c :: 0 <= k < |posts| ==>
        Drift(posts'[k], c, likes, favorites, comments') == Drift(posts[k], c, likes, favorites, comments)
  {
    forall k | 0 <= k < |posts| {
      Tables.CountRemoveAt(comments, i, CommentOnPost(posts[k].id));
    }
  }

  /** How the code names the sender column of a notification it creates.
      The `Notification` model's column is `senderId`; a create that
      names an `actorId` column is rejected by the client before any
      write. */
  datatype SenderColumn = SenderIdColumn | ActorIdColumn

  /** The data of a `notification.create` call. */
  datatype NotificationData = NotificationData(
    recipientId: nat,
    senderColumn: SenderColumn,
    senderId: nat,
    postId: Option<nat>,
    commentId: Option<nat>,
    kind: NotificationType)

  /** `notification.create({ data })` at instant `now`: the new unread row,
      or the rejection of an unknown column. */
  function CreateNotification(t: seq<Notification>, d: NotificationData, now: int)
    : (r: Result<seq<Notification>, string>)
    ensures d.senderColumn == ActorIdColumn <==> r.Err?
  {
    match d.senderColumn
    case ActorIdColumn => Err("Unknown argument `actorId`")
    case SenderIdColumn =>
      Ok(t + [Notification(FreshId(NotificationIds(t)), d.recipientId, Some(d.senderId),
                           d.postId, d.commentId, d.kind, false, now)])
  }

  /** A notification create whose failure is caught and logged: the table
      after it. */
  function NotifyOrKeep(t: seq<Notification>, d: NotificationData, now: int): seq<Notification> {
    match CreateNotification(t, d, now)
    case Ok(t') => t'
    case Err(_) => t
  }

  /** A create that names the sender column `senderId` adds exactly one
      unread row addressed to the recipient, from the sender, with a new id. */
  lemma SenderIdCreateAppends(t: seq<Notification>, d: NotificationData, now: int)
    requires d.senderColumn == SenderIdColumn
    ensures var t' := NotifyOrKeep(t, d, now);
      |t'| == |t| + 1 && t'[..|t|] == t
      && t'[|t|].recipientId == d.recipientId && t'[|t|].senderId == Some(d.senderId)
      && t'[|t|].kind == d.kind && !t'[|t|].isRead
      && forall n :: n in t ==> n.id != t'[|t|].id
  {
    var ids := NotificationIds(t);
    forall n | n in t
      ensures n.id != FreshId(ids)
    {
      var k :| 0 <= k < |t| && t[k] == n;
      assert ids[k] == n.id;
    }
  }

  /** A create that names the sender column `actorId` never adds a row;
      when its failure is caught the table is left as it was. */
  lemma ActorIdCreateIsDropped(t: seq<Notification>, d: NotificationData, now: int)
    requires d.senderColumn == ActorIdColumn
    ensures CreateNotification(t, d, now).Err?
    ensures NotifyOrKeep(t, d, now) == t
  {
  }

  /** The application's tables. */
  class Database {
    var users: seq<User>
    var posts: seq<Post>
    var likes: seq<Like>
    var favorites: seq<Favorite>
    var comments: seq<Comment>
    var notifications: seq<Notification>
    var postTags: seq<Tag>
    var foodTags: seq<Tag>
    var showcases: seq<Showcase>

    /** An empty database. */
    constructor ()
      ensures users == [] && posts == [] && likes == [] && favorites == []
      ensures comments == [] && notifications == [] && postTags == [] && foodTags == []
      ensures showcases == []
    {
      users := [];
      posts := [];
      likes := [];
      favorites := [];
      comments := [];
      notifications := [];
      postTags := [];
      foodTags := [];
      showcases := [];
    }
  }
}
