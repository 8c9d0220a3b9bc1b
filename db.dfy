/**
 * The PostgreSQL database the handlers share, as one object whose tables are sequences of rows in
 * insertion order. Rows are never deleted, so a row's SERIAL id is one more than its position and
 * also serves as its `created_at` insertion counter.
 */
module Db {
  import opened Optional
  import opened Listing

  datatype User = User(
    id: nat, name: string, email: string, password: string, role: string,
    hostelName: Option<string>, blockName: Option<string>, roomNumber: Option<string>,
    staffSpecialty: Option<string>, isActive: bool)

  datatype Issue = Issue(
    id: nat, userId: nat, title: string, category: string, priority: string, description: string,
    isPublic: bool, status: string, imageUrl: Option<string>,
    hostelName: Option<string>, blockName: Option<string>, roomNumber: Option<string>,
    adminNote: Option<string>, assignedUserId: Option<nat>)

  datatype Comment = Comment(id: nat, issueId: int, userId: nat, content: string)

  datatype Message = Message(id: nat, senderId: nat, receiverId: nat, content: string, isRead: bool)

  datatype Notification = Notification(
    id: nat, userId: nat, kind: string, title: string, content: string,
    referenceId: Option<nat>, referenceType: Option<string>, isRead: bool)

  datatype Item = Item(
    id: nat, userId: nat, title: string, description: string, category: string,
    contactInfo: Option<string>, status: string)

  datatype Announcement = Announcement(id: nat, title: string, message: string)

  function UserId(u: User): int { u.id }
  function IssueId(i: Issue): int { i.id }
  function CommentId(c: Comment): int { c.id }
  function MessageId(m: Message): int { m.id }
  function NotificationId(n: Notification): int { n.id }
  function ItemId(i: Item): int { i.id }
  function AnnouncementId(a: Announcement): int { a.id }

  /** `WHERE user_id = $1` on the issues table: the issues a user reported. */
  function ReportedBy(userId: int): Issue -> bool {
    (i: Issue) => i.userId == userId
  }

  /** `SELECT ... FROM users WHERE id = $1`, first row. */
  function UserById(users: seq<User>, id: int): Option<User> {
    Find(users, KeyIs(UserId, id))
  }

  /** The condition `WHERE email = $1`: exact, case-sensitive equality. */
  function EmailIs(email: string): User -> bool {
    (u: User) => u.email == email
  }

  /** `SELECT ... FROM users WHERE email = $1`, first row. */
  function UserByEmail(users: seq<User>, email: string): Option<User> {
    Find(users, EmailIs(email))
  }

  /** The display name a `LEFT JOIN users` attaches for user `id`: NULL when there is no such user. */
  function NameOf(users: seq<User>, id: int): Option<string> {
    match UserById(users, id)
    case Some(u) => Some(u.name)
    case None => None
  }

  /** Only the existence check in the registration handler keeps emails apart. */
  ghost predicate UniqueEmails(users: seq<User>) {
    forall i, j :: 0 <= i < j < |users| ==> users[i].email != users[j].email
  }

  /** The width of the `VARCHAR(255)` columns `title` and `contact_info` of `lost_and_found_items`. */
  const ItemTextWidth := 255

  /**
   * Storing `s` in a `VARCHAR(n)` column. A longer value is refused ("value too long"), except that
   * excess characters that are all spaces are cut off instead.
   */
  function Varchar(s: string, n: nat): (r: Option<string>)
    ensures |s| <= n ==> r == Some(s)
    ensures r.Some? ==> |r.value| <= n && r.value == s[..|r.value|]
    ensures r.Some? ==> forall k :: |r.value| <= k < |s| ==> s[k] == ' '
    ensures r.None? <==> exists k :: n <= k < |s| && s[k] != ' '
  {
    if |s| <= n then Some(s)
    else if forall k :: n <= k < |s| ==> s[k] == ' ' then Some(s[..n])
    else None
  }

  /** The CHECK constraints and column widths of `lost_and_found_items`. */
  predicate ItemChecked(it: Item) {
    && (it.category == "Lost" || it.category == "Found")
    && (it.status == "Open" || it.status == "Claimed")
    && |it.title| <= ItemTextWidth
    && (it.contactInfo.Some? ==> |it.contactInfo.value| <= ItemTextWidth)
  }

  class Database {
    var users: seq<User>
    var issues: seq<Issue>
    var comments: seq<Comment>
    var messages: seq<Message>
    var notifications: seq<Notification>
    var items: seq<Item>
    var announcements: seq<Announcement>

    /**
     * What the schema keeps true: every table holds its rows in insertion order with their SERIAL
     * ids, only the registration check keeps emails apart, and every lost-and-found row meets the
     * table's CHECK constraints and column widths.
     */
    ghost predicate Valid()
      reads this
    {
      && Serial(users, UserId)
      && Serial(issues, IssueId)
      && Serial(comments, CommentId)
      && Serial(messages, MessageId)
      && Serial(notifications, NotificationId)
      && Serial(items, ItemId)
      && Serial(announcements, AnnouncementId)
      && UniqueEmails(users)
      && (forall it :: it in items ==> ItemChecked(it))
    }

    /**
     * A valid database lists every table in id order. The listings take their tables as values and
     * require `Increasing`; this records that every table of a valid database meets that requirement.
     */
    lemma TablesInOrder()
      requires Valid()
      ensures Increasing(users, UserId) && Increasing(issues, IssueId) && Increasing(comments, CommentId)
      ensures Increasing(messages, MessageId) && Increasing(notifications, NotificationId)
      ensures Increasing(items, ItemId) && Increasing(announcements, AnnouncementId)
    {
      SerialIsIncreasing(users, UserId);
      SerialIsIncreasing(issues, IssueId);
      SerialIsIncreasing(comments, CommentId);
      SerialIsIncreasing(messages, MessageId);
      SerialIsIncreasing(notifications, NotificationId);
      SerialIsIncreasing(items, ItemId);
      SerialIsIncreasing(announcements, AnnouncementId);
    }

    /** A freshly created schema: every table empty. */
    constructor ()
      ensures Valid()
      ensures users == [] && issues == [] && comments == [] && messages == []
      ensures notifications == [] && items == [] && announcements == []
    {
      users, issues, comments, messages := [], [], [], [];
      notifications, items, announcements := [], [], [];
    }
  }
}
