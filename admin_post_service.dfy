/** The administrators' post service: the listing of every post, filtered
    by a search term and a status and paged, and the soft delete that
    keeps the row but marks it `DELETED`. */
module AdminPostService {
  import opened Wrappers
  import opened Db
  import Tables
  import Strings
  import Numbers

  /** `contains` with `mode: 'insensitive'`, for ASCII letters. */
  predicate ContainsIgnoringCase(text: string, q: string) {
    Strings.Contains(Strings.ToLowerAscii(text), Strings.ToLowerAscii(q))
  }

  /** The search condition: the term is in the title or the content. */
  predicate SearchMatches(p: Post, search: string) {
    ContainsIgnoringCase(p.title, search) || (p.content.Some? && ContainsIgnoringCase(p.content.value, search))
  }

  /** The names of the `PostStatus` values, as the admin routes document
      them. */
  const PostStatuses: set<string> := {"PUBLISHED", "DELETED", "PENDING"}

  /** How the `status` option filters: not at all, by one status, or
      (for a name that is not a status) to nothing. */
  datatype StatusFilter = AnyStatus | OnlyStatus(status: string) | UnknownStatus

  function StatusFilterOf(status: Option<string>): (r: StatusFilter)
    ensures r == AnyStatus <==> status.None? || status.value == "" || status.value == "ALL"
    ensures r.OnlyStatus? <==> status.Some? && status.value != "" && status.value != "ALL" && status.value in PostStatuses
    ensures r.OnlyStatus? ==> r.status == status.value
  {
    if status.None? || status.value == "" || status.value == "ALL" then AnyStatus
    else if status.value in PostStatuses then OnlyStatus(status.value)
    else UnknownStatus
  }

  /** The `where` clause of the listing. */
  function Where(search: Option<string>, filter: StatusFilter): Post -> bool {
    (p: Post) =>
      (search.Some? && search.value != "" ==> SearchMatches(p, search.value))
      && (filter.OnlyStatus? ==> p.status == filter.status)
  }

  predicate NewestFirst(a: Post, b: Post) {
    a.createdAt >= b.createdAt
  }

  lemma NewestFirstIsPreorder()
    ensures Tables.TotalPreorder(NewestFirst)
  {
  }

  /** Every post the listing selects, newest first. */
  function Selected(posts: seq<Post>, search: Option<string>, filter: StatusFilter): (r: seq<Post>)
    ensures multiset(r) == multiset(Tables.Filter(posts, Where(search, filter)))
    ensures |r| == Tables.Count(posts, Where(search, filter))
    ensures Tables.SortedBy(r, NewestFirst)
  {
    NewestFirstIsPreorder();
    Tables.SortBy(Tables.Filter(posts, Where(search, filter)), NewestFirst)
  }

  datatype PostsQuery = PostsQuery(page: int, limit: int, search: Option<string>, status: Option<string>)

  /** The listing's answer. `totalPages` is `None` where `Math.ceil`
      divides by a zero limit and gives no finite number. */
  datatype AdminPostsPage = AdminPostsPage(posts: seq<Post>, currentPage: int, totalPages: Option<int>, totalPosts: nat)

  /** `getPosts`: an unknown status answers an empty page without
      querying; otherwise the selected posts are counted and the page at
      `skip = (page - 1) * limit` is returned with `ceil(totalPosts /
      limit)` pages. A negative skip makes the query fail; a negative limit
      is taken from the back of the ordered posts and gives a negative page
      count. */
  function GetPosts(posts: seq<Post>, q: PostsQuery): (r: Result<AdminPostsPage, string>)
    ensures StatusFilterOf(q.status) == UnknownStatus ==> r == Ok(AdminPostsPage([], q.page, Some(0), 0))
    ensures StatusFilterOf(q.status) != UnknownStatus ==>
      (r.Err? <==> Tables.Skip(q.page, q.limit) < 0)
    ensures r.Err? ==> r.error == "无法获取帖子列表"
    ensures StatusFilterOf(q.status) != UnknownStatus && r.Ok? ==>
      var filter := StatusFilterOf(q.status);
      var selected := Selected(posts, q.search, filter);
      var skip := Tables.Skip(q.page, q.limit);
      r.value.currentPage == q.page
      && r.value.totalPosts == Tables.Count(posts, Where(q.search, filter))
      && skip >= 0
      && Tables.IsPage(r.value.posts, selected, skip, q.limit)
      && (q.limit != 0 ==> r.value.totalPages == Some(Numbers.CeilDiv(r.value.totalPosts, q.limit)))
      && (q.limit == 0 ==> r.value.totalPages.None?)
  {
    var filter := StatusFilterOf(q.status);
    if filter == UnknownStatus then Ok(AdminPostsPage([], q.page, Some(0), 0))
    else
      var skip := Tables.Skip(q.page, q.limit);
      if skip < 0 then Err("无法获取帖子列表")
      else
        var selected := Selected(posts, q.search, filter);
        var total := |selected|;
        Tables.WindowIsPage(selected, skip, q.limit);
        Ok(AdminPostsPage(Tables.Window(selected, skip, q.limit), q.page,
                          if q.limit == 0 then None else Some(Numbers.CeilDiv(total, q.limit)), total))
  }

  /** Every listed post satisfies the filters: it contains the search term
      and has the requested status. */
  lemma ListedPostsMatch(posts: seq<Post>, q: PostsQuery, i: nat)
    requires GetPosts(posts, q).Ok?
    requires i < |GetPosts(posts, q).value.posts|
    ensures var p := GetPosts(posts, q).value.posts[i];
      p in posts
      && (q.search.Some? && q.search.value != "" ==> SearchMatches(p, q.search.value))
      && (StatusFilterOf(q.status).OnlyStatus? ==> p.status == q.status.value)
  {
    var filter := StatusFilterOf(q.status);
    var selected := Selected(posts, q.search, filter);
    var skip := Tables.Skip(q.page, q.limit);
    var listed := GetPosts(posts, q).value.posts;
    var k := Tables.PageIndex(listed, selected, skip, q.limit, i);
    var p := selected[k];
    assert p in multiset(Tables.Filter(posts, Where(q.search, filter)));
    assert p in Tables.Filter(posts, Where(q.search, filter));
  }

  /** The row once soft-deleted. */
  function SoftDeleted(now: int): Post -> Post {
    (p: Post) => p.(status := "DELETED", deletedAt := Some(now))
  }

  /** `deletePost`: the post's status becomes `DELETED` and its deletion
      time is set; the row stays. A missing post is reported by id. */
  method DeletePost(db: Database, postId: int, now: int) returns (r: Result<Post, string>)
    modifies db`posts
    ensures PostById(old(db.posts), postId).None? ==>
      r == Err("未找到 ID 为 " + Numbers.IntToString(postId) + " 的帖子") && db.posts == old(db.posts)
    ensures PostById(old(db.posts), postId).Some? ==>
      db.posts == Tables.UpdateWhere(old(db.posts), PostWithId(postId), SoftDeleted(now))
      && r == Ok(PostById(old(db.posts), postId).value.(status := "DELETED", deletedAt := Some(now)))
    ensures r.Ok? ==> PostById(db.posts, postId) == Some(r.value) && r.value.status == "DELETED"
    ensures |db.posts| == |old(db.posts)|
    ensures forall k :: 0 <= k < |db.posts| ==> db.posts[k].id == old(db.posts)[k].id
  {
    var found := PostById(db.posts, postId);
    if found.None? {
      return Err("未找到 ID 为 " + Numbers.IntToString(postId) + " 的帖子");
    }
    Tables.FindFirstAfterUpdate(db.posts, PostWithId(postId), SoftDeleted(now));
    db.posts := Tables.UpdateWhere(db.posts, PostWithId(postId), SoftDeleted(now));
    r := Ok(found.value.(status := "DELETED", deletedAt := Some(now)));
  }

  /** A soft-deleted post is still listed under `ALL` and under the
      `DELETED` status, never dropped. */
  lemma SoftDeletedStillListed(p: Post, now: int, search: Option<string>)
    ensures Where(search, AnyStatus)(SoftDeleted(now)(p)) == Where(search, AnyStatus)(p)
    ensures Where(None, OnlyStatus("DELETED"))(SoftDeleted(now)(p))
  {
  }
}
