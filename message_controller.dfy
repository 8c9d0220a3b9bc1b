/**
 * Direct messages between two users: a conversation read oldest first, sending (which also
 * notifies the receiver and pushes the message to the receiver's socket room), marking a received
 * message read, and the count of unread received messages.
 */
module MessageController {
  import opened Optional
  import opened Http
  import opened Listing
  import opened Js
  import opened Db
  import NotificationController

  /** A message row with the names the two inner joins on `users` attach. */
  datatype MessageView = MessageView(message: Message, senderName: string, receiverName: string)

  /** One of the two directions between `a` and `b`. */
  predicate Between(m: Message, a: int, b: int) {
    (m.senderId == a && m.receiverId == b) || (m.senderId == b && m.receiverId == a)
  }

  /** A message survives the inner joins only when both its sender and its receiver have a user row. */
  predicate BothUsersExist(users: seq<User>, m: Message) {
    UserById(users, m.senderId).Some? && UserById(users, m.receiverId).Some?
  }

  function InConversation(users: seq<User>, a: int, b: int): Message -> bool {
    (m: Message) => Between(m, a, b) && BothUsersExist(users, m)
  }

  function ViewOf(users: seq<User>, m: Message): MessageView
    requires BothUsersExist(users, m)
  {
    MessageView(m, UserById(users, m.senderId).value.name, UserById(users, m.receiverId).value.name)
  }

  /**
   * The rows of `getChatHistory`: the messages exchanged in either direction between `caller` and
   * `other`, oldest first; a message whose sender or receiver has no user row is dropped by the
   * inner joins.
   */
  function Conversation(users: seq<User>, messages: seq<Message>, caller: int, other: int): (rows: seq<Message>)
    requires Increasing(messages, MessageId)
    ensures forall m :: m in rows <==> m in messages && Between(m, caller, other) && BothUsersExist(users, m)
    ensures Increasing(rows, MessageId)
  {
    OldestFirst(messages, InConversation(users, caller, other), MessageId)
  }

  /** `getChatHistory`: the conversation, each message with its sender's and receiver's names. */
  function ChatHistory(users: seq<User>, messages: seq<Message>, caller: int, other: int): (r: seq<MessageView>)
    requires Increasing(messages, MessageId)
    ensures |r| == |Conversation(users, messages, caller, other)|
    ensures forall k :: 0 <= k < |r| ==>
              var m := Conversation(users, messages, caller, other)[k];
              BothUsersExist(users, m) && r[k] == ViewOf(users, m)
  {
    var rows := Conversation(users, messages, caller, other);
    forall k | 0 <= k < |rows| ensures BothUsersExist(users, rows[k]) {
      assert rows[k] in rows;
    }
    seq(|rows|, k requires 0 <= k < |rows| => ViewOf(users, rows[k]))
  }

  /** Both participants see the same conversation, in the same order. */
  lemma ChatHistorySymmetric(users: seq<User>, messages: seq<Message>, a: int, b: int)
    requires Increasing(messages, MessageId)
    ensures Conversation(users, messages, a, b) == Conversation(users, messages, b, a)
    ensures ChatHistory(users, messages, a, b) == ChatHistory(users, messages, b, a)
  {
    SelectSameRows(messages, InConversation(users, a, b), InConversation(users, b, a));
  }

  const PreviewLength := 50

  /** `content.substring(0, 50)`, followed by "..." when the content is longer than 50 characters. */
  function Preview(content: string): (p: string)
    ensures |p| <= PreviewLength + 3
    ensures |content| <= PreviewLength ==> p == content
    ensures |content| > PreviewLength ==> |p| == PreviewLength + 3 && p[..PreviewLength] == content[..PreviewLength] && p[PreviewLength..] == "..."
  {
    if |content| > PreviewLength then content[..PreviewLength] + "..." else content
  }

  /** The notification title: an admin sender is shown as "Admin", anyone else by name. */
  function NotificationTitle(sender: User): (t: string)
    ensures |t| >= 17 && t[..17] == "New message from "
    ensures sender.role == AdminRole ==> t[17..] == "Admin"
    ensures sender.role != AdminRole ==> t[17..] == sender.name
  {
    if sender.role == AdminRole then "New message from Admin" else "New message from " + sender.name
  }

  /** The socket room a user's connections join. */
  function Room(userId: nat): (room: string)
    ensures |room| > 5 && room[..5] == "user_" && room[5..] == NatToString(userId)
  {
    "user_" + NatToString(userId)
  }

  /** Different users have different rooms, so a push reaches the receiver's connections only. */
  lemma RoomsDistinct(a: nat, b: nat)
    requires a != b
    ensures Room(a) != Room(b)
  {
    if Room(a) == Room(b) {
      assert Room(a)[5..] == Room(b)[5..];
      NatToStringInjective(a, b);
    }
  }

  /** A socket.io emit: `io.to(room).emit(event, payload)`. */
  datatype Emit = Emit(room: string, event: string, payload: Message)

  /** `!receiver_id || !content`: an absent or zero receiver, or absent or empty content. */
  function MissingFields(receiverId: Option<nat>, content: Option<string>): (missing: bool)
    ensures !missing <==> receiverId.Some? && receiverId.value >= 1 && content.Some? && |content.value| >= 1
  {
    receiverId.None? || receiverId == Some(0) || content.None? || content == Some("")
  }

  /**
   * `sendMessage`. The sender is always the caller. A missing receiver or content is 400 and changes
   * nothing. Otherwise the message is inserted; then, if the sender's user row is missing, the
   * handler throws and answers 500 with the message already stored and no notification. Else the
   * receiver gets an unread "message" notification referring to the message, the message is pushed
   * to the receiver's room when a socket server is attached, and the message is answered with 201.
   */
  method SendMessage(
    db: Database, caller: Identity, receiverId: Option<nat>, content: Option<string>, ioAttached: bool)
    returns (r: Result<Message>, emitted: Option<Emit>)
    requires db.Valid()
    modifies db`messages, db`notifications
    ensures db.Valid()
    ensures MissingFields(receiverId, content) ==>
              r == Err(BadRequest, "Receiver ID and content are required") && emitted == None &&
              db.messages == old(db.messages) && db.notifications == old(db.notifications)
    ensures !MissingFields(receiverId, content) ==>
              var m := Message(|old(db.messages)| + 1, caller.id, receiverId.value, content.value, false);
              && db.messages == old(db.messages) + [m]
              && (UserById(db.users, caller.id).None? ==>
                    r == Err(InternalError, "Failed to send message") && emitted == None &&
                    db.notifications == old(db.notifications))
              && (UserById(db.users, caller.id).Some? ==>
                    var n := NotificationController.NewNotification(
                      |old(db.notifications)| + 1, receiverId.value, "message",
                      NotificationTitle(UserById(db.users, caller.id).value), Preview(content.value),
                      Some(m.id), Some("message"));
                    && r == Ok(Created, m)
                    && db.notifications == old(db.notifications) + [n]
                    && emitted == (if ioAttached then Some(Emit(Room(receiverId.value), "new_message", m)) else None))
  {
    emitted := None;
    if MissingFields(receiverId, content) {
      r := Err(BadRequest, "Receiver ID and content are required");
      return;
    }
    var m := Message(|db.messages| + 1, caller.id, receiverId.value, content.value, false);
    db.messages := db.messages + [m];
    var sender := UserById(db.users, caller.id);
    if sender.None? {
      r := Err(InternalError, "Failed to send message");
      return;
    }
    var _ := NotificationController.CreateNotification(
      db, receiverId.value, "message", NotificationTitle(sender.value), Preview(content.value),
      Some(m.id), Some("message"));
    if ioAttached {
      emitted := Some(Emit(Room(receiverId.value), "new_message", m));
    }
    r := Ok(Created, m);
  }

  function UnreadTo(userId: int): Message -> bool {
    (m: Message) => m.receiverId == userId && !m.isRead
  }

  /** `getUnreadMessageCount`: unread messages received by the user; zero exactly when there are none. */
  function UnreadMessageCount(messages: seq<Message>, userId: int): (c: nat)
    ensures c <= |messages|
    ensures c == 0 <==> forall m :: m in messages && m.receiverId == userId ==> m.isRead
  {
    var rows := Select(messages, UnreadTo(userId));
    assert rows != [] ==> rows[0] in rows;
    |rows|
  }

  /** A sent message is unread, so it raises the receiver's count by one and no one else's (not the sender's). */
  lemma SendRaisesReceiverCount(messages: seq<Message>, m: Message, userId: int)
    requires !m.isRead
    ensures UnreadMessageCount(messages + [m], userId)
         == UnreadMessageCount(messages, userId) + (if m.receiverId == userId then 1 else 0)
  {
    SelectAppend(messages, [m], UnreadTo(userId));
    assert [m][1..] == [];
  }

  /** `SET is_read = true` on a message; `NotificationController.MarkedRead` is the same update on a notification. */
  function MessageRead(m: Message): (r: Message)
    ensures r.isRead && r.(isRead := m.isRead) == m
  {
    m.(isRead := true)
  }

  function ReceivedAs(id: int, userId: int): Message -> bool {
    (m: Message) => m.id == id && m.receiverId == userId
  }

  /**
   * `markMessageAsRead`: only the receiver may mark a message read; the sender, like anyone else
   * or an unknown id, gets 404 "Message not found or unauthorized" and nothing changes.
   */
  method MarkMessageAsRead(db: Database, caller: Identity, id: int) returns (r: Result<Message>)
    requires db.Valid()
    modifies db`messages
    ensures db.Valid()
    ensures !(1 <= id <= |old(db.messages)| && old(db.messages)[id - 1].receiverId == caller.id) ==>
              r == Err(NotFound, "Message not found or unauthorized") && db.messages == old(db.messages)
    ensures 1 <= id <= |old(db.messages)| && old(db.messages)[id - 1].receiverId == caller.id ==>
              var row := MessageRead(old(db.messages)[id - 1]);
              r == Ok(OK, row) && db.messages == old(db.messages)[id - 1 := row]
  {
    var p := ReceivedAs(id, caller.id);
    var found := Find(db.messages, p);
    if 1 <= id <= |db.messages| && db.messages[id - 1].receiverId == caller.id {
      assert p(db.messages[id - 1]) && db.messages[id - 1] in db.messages;
    }
    if found.None? {
      r := Err(NotFound, "Message not found or unauthorized");
      return;
    }
    var k :| 0 <= k < |db.messages| && db.messages[k] == found.value;
    assert k == id - 1;
    var updated := UpdateWhere(db.messages, p, MessageRead);
    assert updated == db.messages[id - 1 := MessageRead(found.value)];
    db.messages := updated;
    r := Ok(OK, MessageRead(found.value));
  }

  /** Reading one unread received message lowers the receiver's count by exactly one. */
  lemma ReadLowersCount(messages: seq<Message>, k: nat, userId: int)
    requires k < |messages| && messages[k].receiverId == userId && !messages[k].isRead
    ensures UnreadMessageCount(messages[k := MessageRead(messages[k])], userId) + 1
         == UnreadMessageCount(messages, userId)
  {
    CountUpdateOne(messages, k, MessageRead(messages[k]), UnreadTo(userId));
  }
}
