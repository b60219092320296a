/** The notification service: a recipient's paged notifications, and the
    updates and deletions that only ever touch the recipient's own rows. */
module NotificationService {
  import opened Wrappers
  import opened Db
  import Tables

  /** The sender as the listing selects it. */
  datatype SenderInfo = SenderInfo(id: nat, name: Option<string>, avatarUrl: Option<string>)

  /** The post as the listing selects it. */
  datatype PostInfo = PostInfo(id: nat, title: string)

  /** A listed notification: the selected columns, the sender (`null` when
      there is none) and the post (`null` when there is none). */
  datatype NotificationItem = NotificationItem(
    id: nat,
    kind: NotificationType,
    isRead: bool,
    createdAt: int,
    postId: Option<nat>,
    commentId: Option<nat>,
    sender: Option<SenderInfo>,
    post: Option<PostInfo>)

  function SenderOf(users: seq<User>, senderId: Option<nat>): (r: Option<SenderInfo>)
    ensures r.Some? <==> senderId.Some? && UserById(users, senderId.value).Some?
    ensures r.Some? ==> r.value.id == senderId.value && r.value.name == UserById(users, senderId.value).value.name
  {
    if senderId.None? then None
    else match UserById(users, senderId.value)
      case None => None
      case Some(u) => Some(SenderInfo(u.id, u.name, u.avatarUrl))
  }

  function PostOf(posts: seq<Post>, postId: Option<nat>): (r: Option<PostInfo>)
    ensures r.Some? <==> postId.Some? && PostById(posts, postId.value).Some?
    ensures r.Some? ==> r.value.id == postId.value && r.value.title == PostById(posts, postId.value).value.title
  {
    if postId.None? then None
    else match PostById(posts, postId.value)
      case None => None
      case Some(p) => Some(PostInfo(p.id, p.title))
  }

  function Item(n: Notification, users: seq<User>, posts: seq<Post>): (r: NotificationItem)
    ensures r.id == n.id && r.kind == n.kind && r.isRead == n.isRead && r.createdAt == n.createdAt
    ensures r.postId == n.postId && r.commentId == n.commentId
    ensures r.sender == SenderOf(users, n.senderId) && r.post == PostOf(posts, n.postId)
  {
    NotificationItem(n.id, n.kind, n.isRead, n.createdAt, n.postId, n.commentId,
                     SenderOf(users, n.senderId), PostOf(posts, n.postId))
  }

  function Items(rows: seq<Notification>, users: seq<User>, posts: seq<Post>): (r: seq<NotificationItem>)
    ensures |r| == |rows|
    ensures forall i :: 0 <= i < |rows| ==> r[i] == Item(rows[i], users, posts)
  {
    if |rows| == 0 then [] else [Item(rows[0], users, posts)] + Items(rows[1..], users, posts)
  }

  /** The listing's `where`: the recipient's rows, only the unread ones when
      `unreadOnly`. */
  function Listed(recipientId: nat, unreadOnly: bool): Notification -> bool {
    (n: Notification) => n.recipientId == recipientId && (!unreadOnly || !n.isRead)
  }

  function NewestFirst(): (Notification, Notification) -> bool {
    (a: Notification, b: Notification) => a.createdAt >= b.createdAt
  }

  lemma NewestFirstIsPreorder()
    ensures Tables.TotalPreorder(NewestFirst())
  {
  }

  function Ordered(t: seq<Notification>, recipientId: nat, unreadOnly: bool): (r: seq<Notification>)
    ensures multiset(r) == multiset(Tables.Filter(t, Listed(recipientId, unreadOnly)))
    ensures |r| == Tables.Count(t, Listed(recipientId, unreadOnly))
    ensures Tables.SortedBy(r, NewestFirst())
  {
    NewestFirstIsPreorder();
    Tables.SortBy(Tables.Filter(t, Listed(recipientId, unreadOnly)), NewestFirst())
  }

  datatype NotificationsPage = NotificationsPage(notifications: seq<NotificationItem>, totalCount: nat)

  /** `getNotifications`: defaults page 1, limit 10 and `unreadOnly` false;
      `skip = (page - 1) * limit`, newest first; `totalCount` counts every
      row the `where` selects. A negative skip makes the query fail; a
      negative limit reads the page from the oldest end. */
  function GetNotifications(t: seq<Notification>, users: seq<User>, posts: seq<Post>, recipientId: nat,
                            page: Option<int>, limit: Option<int>, unreadOnly: Option<bool>)
    : (r: Result<NotificationsPage, string>)
    ensures var skip := Tables.Skip(page.GetOr(1), limit.GetOr(10));
      var take := limit.GetOr(10);
      var ordered := Ordered(t, recipientId, unreadOnly.GetOr(false));
      (r.Err? <==> skip < 0)
      && (r.Ok? ==>
            r.value.totalCount == Tables.Count(t, Listed(recipientId, unreadOnly.GetOr(false)))
            && Tables.IsPage(r.value.notifications, Items(ordered, users, posts), skip, take))
  {
    var skip := Tables.Skip(page.GetOr(1), limit.GetOr(10));
    var take := limit.GetOr(10);
    if skip < 0 then Err(InvalidPaging)
    else
      var ordered := Ordered(t, recipientId, unreadOnly.GetOr(false));
      var listed := Items(Tables.Window(ordered, skip, take), users, posts);
      Tables.PageOfMapped(listed, Items(ordered, users, posts), ordered, skip, take);
      Ok(NotificationsPage(listed, |ordered|))
  }

  /** A listed notification is addressed to the recipient, and unread when
      only unread ones are asked for; the page is newest first. */
  lemma ListedAreTheRecipients(t: seq<Notification>, users: seq<User>, posts: seq<Post>, recipientId: nat,
                               page: Option<int>, limit: Option<int>, unreadOnly: Option<bool>)
    requires GetNotifications(t, users, posts, recipientId, page, limit, unreadOnly).Ok?
    ensures var items := GetNotifications(t, users, posts, recipientId, page, limit, unreadOnly).value.notifications;
      (forall i, j :: 0 <= i < j < |items| ==> items[i].createdAt >= items[j].createdAt)
      && forall i :: 0 <= i < |items| ==>
           (unreadOnly.GetOr(false) ==> !items[i].isRead)
           && exists n :: n in t && n.recipientId == recipientId && n.id == items[i].id
  {
    var skip := Tables.Skip(page.GetOr(1), limit.GetOr(10));
    var take := limit.GetOr(10);
    var listed := Listed(recipientId, unreadOnly.GetOr(false));
    var ordered := Ordered(t, recipientId, unreadOnly.GetOr(false));
    assert skip >= 0;
    var window := Tables.Window(ordered, skip, take);
    Tables.WindowOfSorted(ordered, skip, take, NewestFirst());
    var items := Items(window, users, posts);
    assert GetNotifications(t, users, posts, recipientId, page, limit, unreadOnly).value.notifications == items;
    forall i, j | 0 <= i < j < |items|
      ensures items[i].createdAt >= items[j].createdAt
    {
      assert items[i].createdAt == window[i].createdAt && items[j].createdAt == window[j].createdAt;
      assert NewestFirst()(window[i], window[j]);
    }
    forall i | 0 <= i < |items|
      ensures (unreadOnly.GetOr(false) ==> !items[i].isRead)
           && exists n :: n in t && n.recipientId == recipientId && n.id == items[i].id
    {
      var n := window[i];
      assert n in multiset(ordered);
      assert n in multiset(Tables.Filter(t, listed));
      assert n in t && listed(n);
      assert items[i] == Item(n, users, posts);
    }
  }


  /** The rows `markAsRead` may update: this id, this recipient, unread. */
  function UnreadOwned(recipientId: nat, id: int): Notification -> bool {
    (n: Notification) => n.id == id && n.recipientId == recipientId && !n.isRead
  }

  /** The recipient's unread rows. */
  function UnreadOf(recipientId: nat): Notification -> bool {
    (n: Notification) => n.recipientId == recipientId && !n.isRead
  }

  function MarkRead(): Notification -> Notification {
    (n: Notification) => n.(isRead := true)
  }

  function NotificationWithId(id: int): Notification -> bool {
    (n: Notification) => n.id == id
  }

  function NotificationById(t: seq<Notification>, id: int): (r: Option<Notification>)
    ensures r.Some? ==> r.value in t && r.value.id == id
    ensures r.None? <==> forall n :: n in t ==> n.id != id
  {
    Tables.FindFirst(t, NotificationWithId(id))
  }

  /** `markAsRead`: flips `isRead` on the recipient's unread notification
      with this id and returns it; otherwise returns `null` and changes
      nothing. */
  method MarkAsRead(db: Database, recipientId: nat, notificationId: int) returns (r: Option<Notification>)
    modifies db`notifications
    ensures db.notifications == Tables.UpdateWhere(old(db.notifications), UnreadOwned(recipientId, notificationId), MarkRead())
    ensures r.Some? <==> Tables.Count(old(db.notifications), UnreadOwned(recipientId, notificationId)) > 0
    ensures r.None? ==> db.notifications == old(db.notifications)
    ensures r.Some? ==> r == NotificationById(db.notifications, notificationId)
    ensures UniqueIds(NotificationIds(old(db.notifications))) && r.Some? ==>
      r.value.recipientId == recipientId && r.value.isRead
      && old(db.notifications)[IndexOf(old(db.notifications), notificationId)] == r.value.(isRead := false)
    ensures forall k :: 0 <= k < |old(db.notifications)| && old(db.notifications)[k].id != notificationId ==>
      db.notifications[k] == old(db.notifications)[k]
  {
    var p := UnreadOwned(recipientId, notificationId);
    var count := Tables.Count(db.notifications, p);
    if count == 0 {
      Tables.CountZero(db.notifications, p);
      UpdateNoneKeeps(db.notifications, p, MarkRead());
      return None;
    }
    ghost var before := db.notifications;
    db.notifications := Tables.UpdateWhere(db.notifications, p, MarkRead());
    MarkedFound(before, recipientId, notificationId);
    r := NotificationById(db.notifications, notificationId);
  }

  /** The position of the first row with this id. */
  function IndexOf(t: seq<Notification>, id: int): (i: nat)
    requires NotificationById(t, id).Some?
    ensures i < |t| && t[i].id == id && t[i] == NotificationById(t, id).value
  {
    if t[0].id == id then 0
    else
      assert NotificationById(t, id) == NotificationById(t[1..], id);
      1 + IndexOf(t[1..], id)
  }

  /** An update whose `where` selects nothing leaves the table unchanged. */
  lemma UpdateNoneKeeps(t: seq<Notification>, p: Notification -> bool, f: Notification -> Notification)
    requires forall n :: n in t ==> !p(n)
    ensures Tables.UpdateWhere(t, p, f) == t
  {
    assert forall k :: 0 <= k < |t| ==> t[k] in t;
  }

  /** After `markAsRead` updated a row, the row found by the id is that row,
      now read. */
  lemma MarkedFound(t: seq<Notification>, recipientId: nat, id: int)
    requires Tables.Count(t, UnreadOwned(recipientId, id)) > 0
    ensures var t' := Tables.UpdateWhere(t, UnreadOwned(recipientId, id), MarkRead());
      NotificationById(t', id).Some?
      && (UniqueIds(NotificationIds(t)) ==>
            NotificationById(t', id).value.recipientId == recipientId && NotificationById(t', id).value.isRead
            && t[IndexOf(t, id)] == NotificationById(t', id).value.(isRead := false))
  {
    var p := UnreadOwned(recipientId, id);
    var t' := Tables.UpdateWhere(t, p, MarkRead());
    Tables.CountZero(t, p);
    var n :| n in t && p(n);
    var k :| 0 <= k < |t| && t[k] == n;
    assert t'[k] == n.(isRead := true);
    assert t'[k] in t';
    var j := IndexOf(t', id);
    assert t'[j].id == t[j].id;
    if UniqueIds(NotificationIds(t)) {
      var ids := NotificationIds(t);
      var i := IndexOf(t, id);
      SameIdSameIndex(ids, j, k);
      SameIdSameIndex(ids, i, k);
    }
  }

  /** Under unique ids, two positions with the same id are one position. */
  lemma SameIdSameIndex(ids: seq<nat>, a: nat, b: nat)
    requires UniqueIds(ids) && a < |ids| && b < |ids| && ids[a] == ids[b]
    ensures a == b
  {
  }

  /** A second `markAsRead` of the same notification updates nothing. */
  lemma MarkAsReadTwice(t: seq<Notification>, recipientId: nat, id: int)
    ensures var t' := Tables.UpdateWhere(t, UnreadOwned(recipientId, id), MarkRead());
      Tables.Count(t', UnreadOwned(recipientId, id)) == 0
      && Tables.UpdateWhere(t', UnreadOwned(recipientId, id), MarkRead()) == t'
  {
    var p := UnreadOwned(recipientId, id);
    var t' := Tables.UpdateWhere(t, p, MarkRead());
    forall n | n in t'
      ensures !p(n)
    {
      var k :| 0 <= k < |t'| && t'[k] == n;
    }
    Tables.CountZero(t', p);
    UpdateNoneKeeps(t', p, MarkRead());
  }

  /** `markAllAsRead`: every unread row of the recipient becomes read; the
      count is the number of rows that were unread. */
  method MarkAllAsRead(db: Database, recipientId: nat) returns (count: nat)
    modifies db`notifications
    ensures db.notifications == Tables.UpdateWhere(old(db.notifications), UnreadOf(recipientId), MarkRead())
    ensures count == Tables.Count(old(db.notifications), UnreadOf(recipientId))
    ensures forall k :: 0 <= k < |db.notifications| && db.notifications[k].recipientId == recipientId ==>
      db.notifications[k].isRead
    ensures forall k :: 0 <= k < |old(db.notifications)| && old(db.notifications)[k].recipientId != recipientId ==>
      db.notifications[k] == old(db.notifications)[k]
    ensures Tables.Count(db.notifications, UnreadOf(recipientId)) == 0
  {
    count := Tables.Count(db.notifications, UnreadOf(recipientId));
    db.notifications := Tables.UpdateWhere(db.notifications, UnreadOf(recipientId), MarkRead());
    forall n | n in db.notifications
      ensures !UnreadOf(recipientId)(n)
    {
      var k :| 0 <= k < |db.notifications| && db.notifications[k] == n;
    }
    Tables.CountZero(db.notifications, UnreadOf(recipientId));
  }

  /** The recipient's row with this id (`findFirst({ where: { id,
      recipientId } })`). */
  function OwnedWithId(recipientId: nat, id: int): Notification -> bool {
    (n: Notification) => n.id == id && n.recipientId == recipientId
  }

  /** `deleteNotification`: removes and returns the recipient's
      notification with this id; another user's notification, or a missing
      one, gives `null` and removes nothing. */
  method DeleteNotification(db: Database, recipientId: nat, notificationId: int) returns (r: Option<Notification>)
    modifies db`notifications
    ensures r == Tables.FindFirst(old(db.notifications), OwnedWithId(recipientId, notificationId))
    ensures r.None? ==> db.notifications == old(db.notifications)
    ensures r.Some? ==>
      r.value.recipientId == recipientId && r.value.id == notificationId
      && db.notifications == Tables.DeleteWhere(old(db.notifications), NotificationWithId(notificationId))
      && NotificationById(db.notifications, notificationId).None?
      && |db.notifications| < |old(db.notifications)|
  {
    r := Tables.FindFirst(db.notifications, OwnedWithId(recipientId, notificationId));
    if r.None? {
      return;
    }
    assert NotificationWithId(notificationId)(r.value);
    Tables.CountZero(db.notifications, NotificationWithId(notificationId));
    db.notifications := Tables.DeleteWhere(db.notifications, NotificationWithId(notificationId));
  }

  function ForRecipient(recipientId: nat): Notification -> bool {
    (n: Notification) => n.recipientId == recipientId
  }

  /** `clearAllNotifications`: removes exactly the recipient's rows; the
      count is the number removed. */
  method ClearAllNotifications(db: Database, recipientId: nat) returns (count: nat)
    modifies db`notifications
    ensures db.notifications == Tables.DeleteWhere(old(db.notifications), ForRecipient(recipientId))
    ensures count == |old(db.notifications)| - |db.notifications|
    ensures count == Tables.Count(old(db.notifications), ForRecipient(recipientId))
    ensures forall n :: n in db.notifications <==> n in old(db.notifications) && n.recipientId != recipientId
  {
    count := Tables.Count(db.notifications, ForRecipient(recipientId));
    db.notifications := Tables.DeleteWhere(db.notifications, ForRecipient(recipientId));
  }
}
