/**
 * A user's notifications: created by other handlers, listed a page at a time newest first,
 * counted while unread, and marked read one at a time or all at once. Every handler here acts on
 * the caller's own rows only.
 */
module NotificationController {
  import opened Optional
  import opened Http
  import opened Listing
  import opened Js
  import opened Db

  const DefaultLimit := 20
  const DefaultOffset := 0

  /** The row `createNotification` inserts: unread, with NULL references unless given. */
  function NewNotification(
    id: nat, userId: nat, kind: string, title: string, content: string,
    referenceId: Option<nat>, referenceType: Option<string>): (n: Notification)
    ensures n.id == id && n.userId == userId && !n.isRead
    ensures n.kind == kind && n.title == title && n.content == content
    ensures n.referenceId == referenceId && n.referenceType == referenceType
  {
    Notification(id, userId, kind, title, content, referenceId, referenceType, false)
  }

  /** `createNotification`: appends one unread row for `userId` and returns it. */
  method CreateNotification(
    db: Database, userId: nat, kind: string, title: string, content: string,
    referenceId: Option<nat>, referenceType: Option<string>) returns (n: Notification)
    requires db.Valid()
    modifies db`notifications
    ensures db.Valid()
    ensures n == NewNotification(|old(db.notifications)| + 1, userId, kind, title, content, referenceId, referenceType)
    ensures db.notifications == old(db.notifications) + [n]
  {
    n := NewNotification(|db.notifications| + 1, userId, kind, title, content, referenceId, referenceType);
    db.notifications := db.notifications + [n];
  }

  function OwnedBy(userId: int): Notification -> bool {
    (n: Notification) => n.userId == userId
  }

  function UnreadFor(userId: int): Notification -> bool {
    (n: Notification) => n.userId == userId && !n.isRead
  }

  /** `WHERE user_id = $1 ORDER BY created_at DESC`: the user's notifications, newest first. */
  function Inbox(notifications: seq<Notification>, userId: int): (r: seq<Notification>)
    requires Increasing(notifications, NotificationId)
    ensures forall n :: n in r <==> n in notifications && n.userId == userId
    ensures Decreasing(r, NotificationId)
  {
    NewestFirst(notifications, OwnedBy(userId), NotificationId)
  }

  /** `LIMIT limit OFFSET offset` over the user's inbox: a run of consecutive inbox rows, newest first. */
  function InboxPage(notifications: seq<Notification>, userId: int, limit: nat, offset: nat): (r: seq<Notification>)
    requires Increasing(notifications, NotificationId)
    ensures |r| <= limit
    ensures var total := |Inbox(notifications, userId)|;
            |r| == if offset >= total then 0 else if total - offset < limit then total - offset else limit
    ensures forall k :: 0 <= k < |r| ==> offset + k < |Inbox(notifications, userId)| && r[k] == Inbox(notifications, userId)[offset + k]
    ensures forall n :: n in r ==> n in notifications && n.userId == userId
    ensures Decreasing(r, NotificationId)
  {
    var inbox := Inbox(notifications, userId);
    var page := Page(inbox, limit, offset);
    forall n | n in page ensures n in inbox {
      var k :| 0 <= k < |page| && page[k] == n;
      assert inbox[offset + k] == n;
    }
    page
  }

  /**
   * `getNotifications`. `limit` and `offset` are `parseInt(query) || default`, so a missing,
   * non-numeric or zero limit becomes 20. A negative limit or offset, or one beyond the `bigint`
   * range, is refused by the database and answered 500; otherwise the answer is that page of the
   * caller's inbox.
   */
  function GetNotifications(
    notifications: seq<Notification>, caller: Identity, limitQuery: Option<string>, offsetQuery: Option<string>)
    : (r: Result<seq<Notification>>)
    requires Increasing(notifications, NotificationId)
    ensures var limit := ParseIntOr(limitQuery, DefaultLimit);
            var offset := ParseIntOr(offsetQuery, DefaultOffset);
            && (r.Err? <==> limit < 0 || offset < 0 || limit > MaxBigint || offset > MaxBigint)
            && (r.Err? ==> r == Err(InternalError, "Failed to fetch notifications"))
            && (r.Ok? ==> r.status == OK && r.value == InboxPage(notifications, caller.id, limit, offset))
  {
    var limit := ParseIntOr(limitQuery, DefaultLimit);
    var offset := ParseIntOr(offsetQuery, DefaultOffset);
    if limit < 0 || offset < 0 || limit > MaxBigint || offset > MaxBigint then Err(InternalError, "Failed to fetch notifications")
    else Ok(OK, InboxPage(notifications, caller.id, limit, offset))
  }

  /** With no query parameters the answer is the caller's 20 newest notifications. */
  lemma DefaultPage(notifications: seq<Notification>, caller: Identity)
    requires Increasing(notifications, NotificationId)
    ensures GetNotifications(notifications, caller, None, None) == Ok(OK, InboxPage(notifications, caller.id, 20, 0))
  {
  }

  /** `?limit=0` is falsy after parsing, so it asks for the default 20 rows, not for none. */
  lemma ZeroLimitMeansDefault(notifications: seq<Notification>, caller: Identity, offsetQuery: Option<string>)
    requires Increasing(notifications, NotificationId)
    ensures GetNotifications(notifications, caller, Some("0"), offsetQuery)
         == GetNotifications(notifications, caller, None, offsetQuery)
  {
    ParseIntRoundTrip(0);
    assert NatToString(0) == "0";
  }

  /** Queries that parse to an in-range limit and offset are answered with that page of the inbox. */
  lemma PageAnswer(
    notifications: seq<Notification>, caller: Identity, limitQuery: Option<string>, offsetQuery: Option<string>,
    limit: nat, offset: nat)
    requires Increasing(notifications, NotificationId)
    requires ParseIntOr(limitQuery, DefaultLimit) == limit && limit <= MaxBigint
    requires ParseIntOr(offsetQuery, DefaultOffset) == offset && offset <= MaxBigint
    ensures GetNotifications(notifications, caller, limitQuery, offsetQuery)
         == Ok(OK, Page(Inbox(notifications, caller.id), limit, offset))
  {
  }

  /** Asking for `a` rows, then `b` rows at offset `a`, yields exactly the caller's `a + b` newest. */
  lemma {:induction false} ConsecutivePages(notifications: seq<Notification>, caller: Identity, a: nat, b: nat)
    requires Increasing(notifications, NotificationId)
    requires a > 0 && b > 0 && a + b <= MaxBigint
    ensures var first := GetNotifications(notifications, caller, Some(NatToString(a)), None);
            var second := GetNotifications(notifications, caller, Some(NatToString(b)), Some(NatToString(a)));
            var both := GetNotifications(notifications, caller, Some(NatToString(a + b)), None);
            first.Ok? && second.Ok? && both.Ok? && first.value + second.value == both.value
  {
    ParseIntOrPositive(a, DefaultLimit);
    ParseIntOrPositive(b, DefaultLimit);
    ParseIntOrPositive(a, DefaultOffset);
    ParseIntOrPositive(a + b, DefaultLimit);
    PageAnswer(notifications, caller, Some(NatToString(a)), None, a, 0);
    PageAnswer(notifications, caller, Some(NatToString(b)), Some(NatToString(a)), b, a);
    PageAnswer(notifications, caller, Some(NatToString(a + b)), None, a + b, 0);
    PagesTile(Inbox(notifications, caller.id), a, b);
  }

  /**
   * `getUnreadCount`: the number of the user's unread notifications; zero exactly when the user
   * has none unread.
   */
  function UnreadCount(notifications: seq<Notification>, userId: int): (c: nat)
    ensures c <= |notifications|
    ensures c == 0 <==> forall n :: n in notifications && n.userId == userId ==> n.isRead
  {
    var rows := Select(notifications, UnreadFor(userId));
    assert rows != [] ==> rows[0] in rows;
    |rows|
  }

  /** A new notification is unread, so it raises its recipient's count by one and no one else's. */
  lemma CreateRaisesCount(notifications: seq<Notification>, n: Notification, userId: int)
    requires !n.isRead
    ensures UnreadCount(notifications + [n], userId)
         == UnreadCount(notifications, userId) + (if n.userId == userId then 1 else 0)
  {
    SelectAppend(notifications, [n], UnreadFor(userId));
    assert [n][1..] == [];
  }

  /** `SET is_read = true` on a notification; `MessageController.MessageRead` is the same update on a message. */
  function MarkedRead(n: Notification): (r: Notification)
    ensures r.isRead && r.(isRead := n.isRead) == n
  {
    n.(isRead := true)
  }

  /** `WHERE id = $1 AND user_id = $2`: the notification with that id, if it is the caller's. */
  function OwnNotification(id: int, userId: int): Notification -> bool {
    (n: Notification) => n.id == id && n.userId == userId
  }

  /**
   * `markAsRead`: only the caller's own notification is touched. Another user's id, like an unknown
   * one, is answered 404 "Notification not found" and changes nothing.
   */
  method MarkAsRead(db: Database, caller: Identity, id: int) returns (r: Result<Notification>)
    requires db.Valid()
    modifies db`notifications
    ensures db.Valid()
    ensures !(1 <= id <= |old(db.notifications)| && old(db.notifications)[id - 1].userId == caller.id) ==>
              r == Err(NotFound, "Notification not found") && db.notifications == old(db.notifications)
    ensures 1 <= id <= |old(db.notifications)| && old(db.notifications)[id - 1].userId == caller.id ==>
              var row := MarkedRead(old(db.notifications)[id - 1]);
              r == Ok(OK, row) && db.notifications == old(db.notifications)[id - 1 := row]
  {
    var p := OwnNotification(id, caller.id);
    var found := Find(db.notifications, p);
    if 1 <= id <= |db.notifications| && db.notifications[id - 1].userId == caller.id {
      assert p(db.notifications[id - 1]) && db.notifications[id - 1] in db.notifications;
    }
    if found.None? {
      r := Err(NotFound, "Notification not found");
      return;
    }
    var k :| 0 <= k < |db.notifications| && db.notifications[k] == found.value;
    assert k == id - 1;
    var updated := UpdateWhere(db.notifications, p, MarkedRead);
    assert updated == db.notifications[id - 1 := MarkedRead(found.value)];
    db.notifications := updated;
    r := Ok(OK, MarkedRead(found.value));
  }

  /** Marking one of the caller's unread notifications lowers the caller's unread count by exactly one. */
  lemma MarkOneLowersCount(notifications: seq<Notification>, k: nat, userId: int)
    requires k < |notifications| && notifications[k].userId == userId && !notifications[k].isRead
    ensures UnreadCount(notifications[k := MarkedRead(notifications[k])], userId) + 1
         == UnreadCount(notifications, userId)
  {
    CountUpdateOne(notifications, k, MarkedRead(notifications[k]), UnreadFor(userId));
  }

  /** `UPDATE notifications SET is_read = true WHERE user_id = $1 AND is_read = false`. */
  function AllRead(notifications: seq<Notification>, userId: int): (r: seq<Notification>)
    ensures |r| == |notifications|
    ensures forall k :: 0 <= k < |r| && notifications[k].userId != userId ==> r[k] == notifications[k]
    ensures forall k :: 0 <= k < |r| && notifications[k].userId == userId ==>
              r[k] == MarkedRead(notifications[k])
  {
    UpdateWhere(notifications, UnreadFor(userId), MarkedRead)
  }

  /** `markAllAsRead`: always answers "All notifications marked as read". */
  method MarkAllAsRead(db: Database, caller: Identity) returns (r: Result<string>)
    requires db.Valid()
    modifies db`notifications
    ensures db.Valid()
    ensures db.notifications == AllRead(old(db.notifications), caller.id)
    ensures r == Ok(OK, "All notifications marked as read")
  {
    db.notifications := AllRead(db.notifications, caller.id);
    r := Ok(OK, "All notifications marked as read");
  }

  /** After marking all read, the caller has no unread notification left. */
  lemma AllReadClearsCount(notifications: seq<Notification>, userId: int)
    ensures UnreadCount(AllRead(notifications, userId), userId) == 0
  {
    var r := AllRead(notifications, userId);
    forall n | n in r && n.userId == userId ensures n.isRead {
      var k :| 0 <= k < |r| && r[k] == n;
    }
  }

  /** Marking all read for one user leaves every other user's unread count as it was. */
  lemma AllReadKeepsOthers(notifications: seq<Notification>, userId: int, other: int)
    requires other != userId
    ensures UnreadCount(AllRead(notifications, userId), other) == UnreadCount(notifications, other)
  {
    CountPointwise(AllRead(notifications, userId), notifications, UnreadFor(other));
  }

  /** Marking all read a second time changes nothing. */
  lemma AllReadIdempotent(notifications: seq<Notification>, userId: int)
    ensures AllRead(AllRead(notifications, userId), userId) == AllRead(notifications, userId)
  {
  }
}
