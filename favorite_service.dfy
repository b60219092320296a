/** The favorite service: favorites keyed by the (user, post) pair, kept in
    step with each post's `favoritesCount`, and the page of a user's
    favorite posts. */
module FavoriteService {
  import opened Wrappers
  import opened Db
  import Tables
  import PostService

  /** The FAVORITE notification as `favoritePost` writes it: the sender is
      named in an `actorId` column. */
  function FavoriteNotification(post: Post, userId: nat): NotificationData {
    NotificationData(post.authorId, ActorIdColumn, userId, Some(post.id), None, FavoriteNote)
  }

  /** `favoritePost` as written: an existing favorite is returned and
      nothing changes; otherwise the favorite is added and the post's
      `favoritesCount` incremented in one transaction (the insert fails when
      the user or the post does not exist). The notification to the post's
      author names `actorId`; its create fails and is swallowed. */
  method FavoritePost(db: Database, userId: nat, postId: nat, now: int) returns (r: Result<Favorite, string>)
    modifies db`favorites, db`posts, db`notifications
    ensures FavoriteOf(old(db.favorites), userId, postId).Some? ==>
      r == Ok(FavoriteOf(old(db.favorites), userId, postId).value)
      && db.favorites == old(db.favorites) && db.posts == old(db.posts)
    ensures FavoriteOf(old(db.favorites), userId, postId).None?
            && !PostService.References(db.users, old(db.posts), userId, postId) ==>
      r == Err(ForeignKeyFailed) && db.favorites == old(db.favorites) && db.posts == old(db.posts)
    ensures FavoriteOf(old(db.favorites), userId, postId).None?
            && PostService.References(db.users, old(db.posts), userId, postId) ==>
      r == Ok(Favorite(userId, postId, now))
      && db.favorites == old(db.favorites) + [Favorite(userId, postId, now)]
      && db.posts == BumpCounter(old(db.posts), postId, Favorites, 1)
    ensures db.notifications == old(db.notifications)
    ensures r.Ok? ==> FavoriteOf(db.favorites, userId, postId).Some?
    ensures UniqueFavorites(old(db.favorites)) ==> UniqueFavorites(db.favorites)
    ensures forall k, c :: 0 <= k < |old(db.posts)| ==>
      Drift(db.posts[k], c, db.likes, db.favorites, db.comments)
      == Drift(old(db.posts)[k], c, db.likes, old(db.favorites), db.comments)
  {
    var existing := FavoriteOf(db.favorites, userId, postId);
    if existing.Some? {
      return Ok(existing.value);
    }
    if !PostService.References(db.users, db.posts, userId, postId) {
      return Err(ForeignKeyFailed);
    }
    var favorite := Favorite(userId, postId, now);
    FavoriteAddedKeepsDrift(db.posts, db.likes, db.favorites, db.comments, favorite);
    FavoriteAdded(db.favorites, favorite);
    db.favorites := db.favorites + [favorite];
    var post := PostById(db.posts, postId).value;
    db.posts := BumpCounter(db.posts, postId, Favorites, 1);
    if post.authorId != userId {
      ActorIdCreateIsDropped(db.notifications, FavoriteNotification(post, userId), now);
      db.notifications := NotifyOrKeep(db.notifications, FavoriteNotification(post, userId), now);
    }
    r := Ok(favorite);
  }

  /** Adding a favorite for a pair that has none keeps the pairs unique
      and makes the pair favorited. */
  lemma FavoriteAdded(t: seq<Favorite>, f: Favorite)
    requires FavoriteOf(t, f.userId, f.postId).None?
    ensures UniqueFavorites(t) ==> UniqueFavorites(t + [f])
    ensures FavoriteOf(t + [f], f.userId, f.postId).Some?
  {
    assert f in t + [f];
    assert forall i :: 0 <= i < |t| ==> (t + [f])[i] == t[i] && t[i] in t;
  }

  /** `unfavoritePost`: `null` and no change when the pair is not
      favorited; otherwise the favorite is removed and the post's
      `favoritesCount` decremented in one transaction, which fails as a
      whole when the post is gone. */
  method UnfavoritePost(db: Database, userId: nat, postId: nat) returns (r: Result<Option<Favorite>, string>)
    modifies db`favorites, db`posts
    ensures FavoriteOf(old(db.favorites), userId, postId).None? ==>
      r == Ok(None) && db.favorites == old(db.favorites) && db.posts == old(db.posts)
    ensures FavoriteOf(old(db.favorites), userId, postId).Some? && PostById(old(db.posts), postId).None? ==>
      r == Err(RecordNotFound) && db.favorites == old(db.favorites) && db.posts == old(db.posts)
    ensures FavoriteOf(old(db.favorites), userId, postId).Some? && PostById(old(db.posts), postId).Some? ==>
      r == Ok(FavoriteOf(old(db.favorites), userId, postId))
      && db.favorites == Tables.DeleteWhere(old(db.favorites), FavoriteKey(userId, postId))
      && db.posts == BumpCounter(old(db.posts), postId, Favorites, -1)
    ensures r.Ok? ==> FavoriteOf(db.favorites, userId, postId).None?
    ensures UniqueFavorites(old(db.favorites)) ==>
      forall k, c :: 0 <= k < |old(db.posts)| ==>
        Drift(db.posts[k], c, db.likes, db.favorites, db.comments)
        == Drift(old(db.posts)[k], c, db.likes, old(db.favorites), db.comments)
  {
    var existing := FavoriteOf(db.favorites, userId, postId);
    if existing.None? {
      return Ok(None);
    }
    if PostById(db.posts, postId).None? {
      return Err(RecordNotFound);
    }
    if UniqueFavorites(db.favorites) {
      FavoriteRemovedKeepsDrift(db.posts, db.likes, db.favorites, db.comments, userId, postId);
    }
    db.favorites := Tables.DeleteWhere(db.favorites, FavoriteKey(userId, postId));
    db.posts := BumpCounter(db.posts, postId, Favorites, -1);
    r := Ok(existing);
  }

  /** The favorites of one user (`where: { userId }`). */
  function FavoriteByUser(userId: nat): Favorite -> bool {
    (f: Favorite) => f.userId == userId
  }

  function NewestFavoriteFirst(): (Favorite, Favorite) -> bool {
    (a: Favorite, b: Favorite) => a.createdAt >= b.createdAt
  }

  lemma NewestFavoriteFirstIsPreorder()
    ensures Tables.TotalPreorder(NewestFavoriteFirst())
  {
  }

  /** A user's favorites, newest first. */
  function UserFavorites(favorites: seq<Favorite>, userId: nat): (r: seq<Favorite>)
    ensures multiset(r) == multiset(Tables.Filter(favorites, FavoriteByUser(userId)))
    ensures |r| == Tables.Count(favorites, FavoriteByUser(userId))
    ensures Tables.SortedBy(r, NewestFavoriteFirst())
  {
    NewestFavoriteFirstIsPreorder();
    Tables.SortBy(Tables.Filter(favorites, FavoriteByUser(userId)), NewestFavoriteFirst())
  }

  function FavoritePostIds(page: seq<Favorite>): (r: seq<nat>)
    ensures |r| == |page| && forall i :: 0 <= i < |page| ==> r[i] == page[i].postId
  {
    if |page| == 0 then [] else [page[0].postId] + FavoritePostIds(page[1..])
  }

  /** A favorite post as the page returns it: liked when the user has a
      like on it, and always favorited. */
  function FavoriteView(p: Post, users: seq<User>, likes: seq<Like>, userId: nat): (r: PostService.PostView)
    ensures r.id == p.id && r.title == p.title && r.content == p.content && r.createdAt == p.createdAt
    ensures r.likesCount == p.likesCount && r.commentsCount == p.commentsCount && r.favoritesCount == p.favoritesCount
    ensures r.author == PostService.AuthorOf(users, p.authorId)
    ensures r.isLiked <==> LikeOf(likes, userId, p.id).Some?
    ensures r.isFavorited
  {
    PostService.PostView(p.id, p.title, p.content, p.createdAt, PostService.AuthorOf(users, p.authorId),
                         p.likesCount, p.commentsCount, p.favoritesCount, LikeOf(likes, userId, p.id).Some?, true)
  }

  /** The ids that name an existing post. */
  function PostExists(posts: seq<Post>): nat -> bool {
    (id: nat) => PostById(posts, id).Some?
  }

  function ViewIds(views: seq<PostService.PostView>): (r: seq<nat>)
    ensures |r| == |views| && forall i :: 0 <= i < |views| ==> r[i] == views[i].id
  {
    if |views| == 0 then [] else [views[0].id] + ViewIds(views[1..])
  }

  /** `postIds.map(id => find).filter(defined)`: the posts of the page's
      ids in the page's order, skipping ids whose post is gone. */
  function InIdOrder(ids: seq<nat>, posts: seq<Post>, users: seq<User>, likes: seq<Like>, userId: nat)
    : (r: seq<PostService.PostView>)
    ensures ViewIds(r) == Tables.Filter(ids, PostExists(posts))
    ensures forall i :: 0 <= i < |r| ==>
      PostById(posts, r[i].id).Some? && r[i] == FavoriteView(PostById(posts, r[i].id).value, users, likes, userId)
  {
    if |ids| == 0 then []
    else
      var rest := InIdOrder(ids[1..], posts, users, likes, userId);
      match PostById(posts, ids[0])
      case None => rest
      case Some(p) =>
        var r := [FavoriteView(p, users, likes, userId)] + rest;
        assert ViewIds(r) == [ids[0]] + ViewIds(rest);
        r
  }

  datatype FavoritesPage = FavoritesPage(posts: seq<PostService.PostView>, totalCount: nat)

  /** `fetchUserFavoritesPage`: defaults page 1 and limit 10, `skip =
      (page - 1) * limit` over the user's favorites, newest first. An empty
      page reports `totalCount` 0; otherwise it is the number of the
      user's favorites. A negative skip makes the query fail; a negative
      limit reads the page from the oldest end. */
  function FetchUserFavoritesPage(favorites: seq<Favorite>, posts: seq<Post>, users: seq<User>, likes: seq<Like>,
                                  userId: nat, page: Option<int>, limit: Option<int>): (r: Result<FavoritesPage, string>)
    ensures var skip := Tables.Skip(page.GetOr(1), limit.GetOr(10));
      var take := limit.GetOr(10);
      var ordered := UserFavorites(favorites, userId);
      (r.Err? <==> skip < 0)
      && (r.Ok? ==>
            var ids := FavoritePostIds(Tables.Window(ordered, skip, take));
            Tables.IsPage(ids, FavoritePostIds(ordered), skip, take)
            && |r.value.posts| <= |ids|
            && ViewIds(r.value.posts) == Tables.Filter(ids, PostExists(posts))
            && (forall i :: 0 <= i < |r.value.posts| ==> r.value.posts[i].isFavorited)
            && r.value.totalCount == (if |ids| == 0 then 0 else Tables.Count(favorites, FavoriteByUser(userId))))
  {
    var skip := Tables.Skip(page.GetOr(1), limit.GetOr(10));
    var take := limit.GetOr(10);
    if skip < 0 then Err(InvalidPaging)
    else
      var totalCount := Tables.Count(favorites, FavoriteByUser(userId));
      var ordered := UserFavorites(favorites, userId);
      var ids := FavoritePostIds(Tables.Window(ordered, skip, take));
      Tables.PageOfMapped(ids, FavoritePostIds(ordered), ordered, skip, take);
      if |ids| == 0 then Ok(FavoritesPage([], 0))
      else Ok(FavoritesPage(InIdOrder(ids, posts, users, likes, userId), totalCount))
  }

  /** Every listed post is one the user has favorited. */
  lemma ListedPostsAreFavorites(favorites: seq<Favorite>, posts: seq<Post>, users: seq<User>, likes: seq<Like>,
                                userId: nat, page: Option<int>, limit: Option<int>, i: nat)
    requires FetchUserFavoritesPage(favorites, posts, users, likes, userId, page, limit).Ok?
    requires i < |FetchUserFavoritesPage(favorites, posts, users, likes, userId, page, limit).value.posts|
    ensures FavoriteOf(favorites, userId,
              FetchUserFavoritesPage(favorites, posts, users, likes, userId, page, limit).value.posts[i].id).Some?
  {
    var r := FetchUserFavoritesPage(favorites, posts, users, likes, userId, page, limit).value;
    var skip := Tables.Skip(page.GetOr(1), limit.GetOr(10));
    var take := limit.GetOr(10);
    var window := Tables.Window(UserFavorites(favorites, userId), skip, take);
    var ids := FavoritePostIds(window);
    var id := r.posts[i].id;
    assert ViewIds(r.posts)[i] == id;
    assert id in Tables.Filter(ids, PostExists(posts));
    var k :| 0 <= k < |ids| && ids[k] == id;
    var f := window[k];
    assert f in multiset(UserFavorites(favorites, userId));
    assert f in Tables.Filter(favorites, FavoriteByUser(userId));
    assert f.userId == userId && f.postId == id;
  }

  /** A page past the user's last favorite reports a `totalCount` of 0,
      whatever the number of the user's favorites. */
  lemma PastLastPageReportsZero(favorites: seq<Favorite>, posts: seq<Post>, users: seq<User>, likes: seq<Like>,
                                userId: nat, page: Option<int>, limit: Option<int>)
    requires Tables.Skip(page.GetOr(1), limit.GetOr(10)) >= Tables.Count(favorites, FavoriteByUser(userId))
    ensures FetchUserFavoritesPage(favorites, posts, users, likes, userId, page, limit) == Ok(FavoritesPage([], 0))
  {
  }
}
