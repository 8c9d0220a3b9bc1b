# Hostel issue tracker: request handlers, in Dafny

This project models the backend of a hostel issue-tracking web application and proves properties
of that model. The backend is Express on PostgreSQL. Students report maintenance issues. Admins open
the issues, assign them to staff and resolve them. Around that lifecycle sit:

- login with a signed session token, and the two middlewares that check it (`authenticate`, then a
  role gate);
- admin registration of accounts;
- the student roster with soft deactivation;
- comments, announcements and a lost-and-found board;
- direct messages, which also notify the receiver and push to the receiver's socket room;
- per-user notifications with paging and unread counts;
- the client-side mock issue store of the second frontend (`IssueContext`).

How the model is built:

- **The database** is one object, `Db.Database`, with one `seq` field per table. Rows are never
  deleted, so a row's SERIAL id is one more than its position. `Valid()` keeps that, together with
  unique emails and the CHECK constraints of the lost-and-found table. The id also serves as the
  `created_at` insertion counter, so `ORDER BY created_at DESC` is newest-inserted first.
- **Handlers that write** are methods with field-granular `modifies` clauses. Each `ensures` gives
  the new table in terms of the old one and the response.
- **Handlers that only read** are functions over table values. Each says which rows come back and in
  what order.
- **Queries** use the helpers in module `Listing`:
  - `Select` is `WHERE`;
  - `Find` is `rows[0]`;
  - `UpdateWhere` is `UPDATE ... WHERE`;
  - `NewestFirst` and `OldestFirst` are the `ORDER BY created_at` listings;
  - `Page` is `LIMIT ... OFFSET`.
- **The caller** (`req.user`) is an explicit `Identity(id, role)`.
- **Hashing and tokens** are values passed in. `Crypto.PasswordHasher` stands for bcrypt and
  `Crypto.TokenService` for jsonwebtoken, with its soundness stated as a predicate.
- **JavaScript semantics** the handlers rely on are written out in `Js` and `Text`: `String(v)`,
  `parseInt(q) || d` and `split(" ")`.

## Model

| member | source | states |
|---|---|---|
| AuthMiddleware.Authenticate | backend/middlewares/authMiddleware.js:4-29 | No header, or an empty one, gives 401 "No token Provided". A header without a non-empty second space-separated field gives 401 "Invalid token format". A token `verify` refuses gives 401 "Unauthorized Access". Every rejection is a 401. The request passes exactly when the token verifies, and `req.user` is then the token's claims. |
| AuthMiddleware.BearerToken | backend/middlewares/authMiddleware.js:15-16 | The token is the second space-separated field of the header, and only when it is non-empty. A token never contains a space, and a header without a space has no token. |
| AuthMiddleware.BearerTokenAnyScheme | backend/middlewares/authMiddleware.js:15 | The scheme word is never checked: any space-free word, a space, then the token yields the token. |
| AuthMiddleware.BearerTokenNeedsSpace | backend/middlewares/authMiddleware.js:15-18 | A header with no space (a bare token, or "Bearer" alone) has no token field. |
| AuthMiddleware.BearerTokenDoubleSpace | backend/middlewares/authMiddleware.js:15-18 | Two spaces after the scheme leave the token field empty, which is rejected as a bad format. |
| AuthMiddleware.SignedTokenAuthenticates | backend/middlewares/authMiddleware.js:15-24 | A freshly signed token sent as `<scheme> <token>` authenticates as exactly the claims it was signed over. |
| RoleMiddleware.IsAdmin | backend/middlewares/roleMiddleware.js:1-6 | The request passes if and only if the role is "admin". Otherwise it gets 403 "Admin Access only". |
| RoleMiddleware.IsStudent | backend/middlewares/roleMiddleware.js:8-13 | The request passes if and only if the role is "student". Otherwise it gets 403 "Student Access only". |
| RoleMiddleware.Guarded | backend/routes/adminRoutes.js:9 | The chain `authenticate, gate`: an authentication failure is the answer unchanged. The request passes exactly when authentication passes and the gate accepts the authenticated identity. |
| RoleMiddleware.StaffPassesNeitherGate | backend/middlewares/roleMiddleware.js:1-13 | A staff account is refused by both role gates. |
| RoleMiddleware.AdminRouteOrder | backend/routes/adminRoutes.js:9 | On `authenticate, isAdmin`, an authentication failure stays a 401 and is never turned into a 403. An authenticated non-admin gets 403. |
| RoleMiddleware.StudentTokenOnAdminRoute | backend/routes/adminRoutes.js:9 | A student's genuine token on an admin route is answered 403 "Admin Access only". |
| AuthController.Login | backend/controllers/authController.js:5-53 | Login succeeds exactly when the first user with that email exists and the hash accepts the password. The token is signed over `{id, role}` with a one-day lifetime. The returned user has only id, name and role. Every failure is the same 401 "Invaild Credentials". |
| AuthController.RegisteredUserLogsIn | backend/controllers/authController.js:9-36 | A user added under a fresh email, with the hash of a password, logs in with that password as themself. |
| AuthController.LoginThenAuthenticate | backend/controllers/authController.js:27-47 | The token a successful login returns, sent back as a bearer header, authenticates as the stored user's id and role. |
| AdminController.NewUserRow | backend/controllers/adminController.js:22-34 | The inserted row stores the password hashed, never in plain text. The role is "student" unless given, and the account starts active. |
| AdminController.RecordOf | backend/controllers/adminController.js:32 | The `RETURNING` columns: id, name, email, role, hostel, block, room and specialty, each the stored row's. |
| AdminController.RecordHidesPassword | backend/controllers/adminController.js:32-38 | The response does not depend on the stored password hash: rows differing only in it give the same answer. |
| AdminController.CreateStudent | backend/controllers/adminController.js:6-44 | An email already registered gives 400 "User already exists" and nothing is inserted. Otherwise one row is appended and answered 201 without the password hash. Afterwards exactly one user has that email. |
| IssueController.PublicFlag | backend/controllers/issueController.js:11-18 | An issue is public if and only if `is_public` is the boolean true or the string "true". Omitted, false, "false" and anything else give false. |
| IssueController.ForwardSlashes | backend/controllers/issueController.js:21 | The stored image path has no backslash and the same length. Each backslash becomes '/' and every other character stays. |
| IssueController.ForwardSlashesKeepsClean | backend/controllers/issueController.js:21 | A path without a backslash is stored unchanged. |
| IssueController.ForwardSlashesIdempotent | backend/controllers/issueController.js:21 | Normalising a path twice is normalising it once. |
| IssueController.NewIssue | backend/controllers/issueController.js:6-35 | A new issue has status "open" and the caller as reporter. Category defaults to "general" and priority to "medium". The image URL is present exactly when a file was uploaded, and is then the upload path with every backslash turned into '/'. Hostel, block and room are copied from the reporter's row, or are NULL without one. No note and no assignee. |
| IssueController.CreateIssue | backend/controllers/issueController.js:4-45 | With no `req.user` the handler answers 500 "Failed to create issue" and inserts nothing. Otherwise exactly that new issue is appended and answered 201. |
| IssueController.CreateIssueRouteAsWritten | backend/routes/issueRoutes.js:6 | As mounted, with no `authenticate`, every request to create an issue is answered 500 and inserts nothing. |
| IssueController.CreateIssueRoute | backend/routes/issueRoutes.js:6 | With `authenticate, isStudent` in front (reporting is a student action, and guarded routes chain `authenticate` then a role gate, as the admin routes do with `isAdmin`): an unauthenticated request gets the middleware's 401, and an authenticated non-student gets 403 "Student Access only". Neither inserts anything. A student's request creates the issue with the token's user as reporter. |
| IssueController.WithStatus | backend/controllers/issueController.js:92-98 | Only the status changes, to the given string. |
| IssueController.Opened | backend/controllers/issueController.js:121-127 | Status becomes "in_progress" and the assignee the given id. The admin note and every other column are unchanged. |
| IssueController.Resolved | backend/controllers/issueController.js:159-166 | Status becomes "resolved" and the note the given text. The assignee and every other column are unchanged. |
| IssueController.UpdateIssue | backend/controllers/issueController.js:92-102 | `UPDATE issues ... WHERE id = $2 RETURNING *`: an unknown id gives 404 "Issue not found" and changes nothing. Otherwise exactly that row is rewritten and returned. |
| IssueController.UpdateIssueStatus | backend/controllers/issueController.js:88-113 | Any status string is written without validation. Only that issue's status changes. An unknown id gives 404. |
| IssueController.OpenIssue | backend/controllers/issueController.js:116-139 | Only that issue moves to in_progress with the given assignee; an omitted assignee clears it. An unknown id gives 404 and no change. |
| IssueController.ResolveIssue | backend/controllers/issueController.js:156-178 | Only that issue moves to resolved with the note, or with "Resolved by admin" when none is given. An unknown id gives 404 and no change. |
| IssueController.ResolveTwice | backend/controllers/issueController.js:159-166 | Resolving the same issue twice with the same note gives the same row as resolving it once. |
| IssueController.ResolvedIsNotFinal | backend/controllers/issueController.js:92-127 | Nothing guards the lifecycle: a resolved issue can be opened again or set back to "open", and it keeps its note. |
| IssueController.AllIssues | backend/controllers/issueController.js:51-57 | Every issue appears exactly once, newest first. |
| IssueController.PublicIssues | backend/controllers/issueController.js:70-76 | Exactly the public issues, newest first. |
| IssueController.MyIssues | backend/controllers/issueController.js:184-193 | Exactly the caller's issues, newest first. |
| IssueController.GetAllIssues | backend/controllers/issueController.js:49-63 | Each issue once, newest first. Each row carries its reporter's name and its assignee's name, NULL when there is no such user. |
| IssueController.GetPublicIssues | backend/controllers/issueController.js:68-83 | Public issues only, newest first, each with its reporter's name. No private issue is ever listed. |
| IssueController.GetMyIssues | backend/controllers/issueController.js:182-201 | Only the caller's issues, all of them, newest first, with both names. |
| IssueController.GetStaff | backend/controllers/issueController.js:142-152 | Exactly the admin and staff accounts, one row each, with only id, name and specialty. |
| NotificationController.CreateNotification | backend/controllers/notificationController.js:4-17 | One unread row is appended for the recipient. References are NULL unless given. |
| NotificationController.NewNotification | backend/controllers/notificationController.js:4-11 | The inserted row belongs to the given user, starts unread, and carries the given kind, title, content and references (NULL unless given). |
| NotificationController.Inbox | backend/controllers/notificationController.js:26-31 | Exactly the user's notifications, newest first. |
| NotificationController.InboxPage | backend/controllers/notificationController.js:26-31 | `LIMIT/OFFSET` over the inbox: exactly `min(limit, inbox size - offset)` rows, none past the end. They are the consecutive inbox rows from `offset` on, all the user's own, newest first. |
| NotificationController.GetNotifications | backend/controllers/notificationController.js:20-39 | The limit and offset are `parseInt(q) \|\| default`. A negative one, or one beyond PostgreSQL's `bigint` range, is refused by the database and answered 500 "Failed to fetch notifications". Otherwise the answer is that page of the caller's inbox. |
| NotificationController.PageAnswer | backend/controllers/notificationController.js:23-31 | Queries that parse to a limit and an offset within range are answered with exactly that page of the caller's inbox. |
| NotificationController.DefaultPage | backend/controllers/notificationController.js:23-24 | Without query parameters the caller gets their 20 newest notifications. |
| NotificationController.ZeroLimitMeansDefault | backend/controllers/notificationController.js:23 | `?limit=0` is falsy after parsing, so it returns the default 20 rows rather than none. |
| NotificationController.ConsecutivePages | backend/controllers/notificationController.js:23-31 | Asking for `a` rows, then for `b` rows at offset `a`, gives exactly the caller's `a + b` newest notifications, whenever `a + b` is within the `bigint` range. |
| NotificationController.UnreadCount | backend/controllers/notificationController.js:42-56 | Counts the user's unread notifications. It is zero exactly when the user has none unread. |
| NotificationController.CreateRaisesCount | backend/controllers/notificationController.js:4-49 | A new notification raises its recipient's unread count by one and nobody else's. |
| NotificationController.MarkedRead | backend/controllers/notificationController.js:64-70 | Only the read flag changes, to true. |
| NotificationController.MarkAsRead | backend/controllers/notificationController.js:59-81 | Only the caller's own notification can be marked read. Another user's id, like an unknown one, gives 404 "Notification not found" and no change. |
| NotificationController.MarkOneLowersCount | backend/controllers/notificationController.js:64-70 | Marking one of the caller's unread notifications lowers the caller's unread count by exactly one. |
| NotificationController.AllRead | backend/controllers/notificationController.js:88-91 | Every one of the user's notifications ends up read. Other users' rows are untouched. |
| NotificationController.MarkAllAsRead | backend/controllers/notificationController.js:84-98 | The notifications table becomes `AllRead` of the caller. The answer is always "All notifications marked as read". |
| NotificationController.AllReadClearsCount | backend/controllers/notificationController.js:88-91 | After "mark all read", the caller's unread count is 0. |
| NotificationController.AllReadKeepsOthers | backend/controllers/notificationController.js:88-91 | "Mark all read" leaves every other user's unread count unchanged. |
| NotificationController.AllReadIdempotent | backend/controllers/notificationController.js:88-91 | Marking all read a second time changes nothing. |
| MessageController.Conversation | backend/controllers/messageController.js:10-21 | Exactly the messages between the two users, in either direction, oldest first. A message whose sender or receiver has no user row is dropped by the inner joins. |
| MessageController.ChatHistory | backend/controllers/messageController.js:5-28 | Each message of the conversation, in order, with its sender's and receiver's names. |
| MessageController.ChatHistorySymmetric | backend/controllers/messageController.js:17-18 | Both participants see the same conversation in the same order. |
| MessageController.Preview | backend/controllers/messageController.js:59 | The notification text is the content when it has at most 50 characters. Otherwise it is the first 50 characters followed by "...", never more than 53 characters. |
| MessageController.NotificationTitle | backend/controllers/messageController.js:58 | The title is "New message from " followed by "Admin" when the sender is an admin, and by the sender's name otherwise. |
| MessageController.Room | backend/controllers/messageController.js:66 | The room is "user_" followed by the receiver's decimal id. |
| MessageController.RoomsDistinct | backend/controllers/messageController.js:66 | Different receivers have different rooms, so a push reaches only the receiver's connections. |
| MessageController.MissingFields | backend/controllers/messageController.js:36 | `!receiver_id \|\| !content` fails exactly when a receiver id of at least 1 and non-empty content are both present. |
| MessageController.SendMessage | backend/controllers/messageController.js:31-74 | The sender is always the caller. A missing or zero receiver, or missing or empty content, gives 400 and no change. Otherwise the message is stored. If the sender's row is missing, the handler answers 500 and the message stays stored, with no notification. Otherwise the receiver gets an unread "message" notification that refers to the message. The message is pushed to `user_<receiver>` only when a socket server is attached, and answered with 201. |
| MessageController.UnreadMessageCount | backend/controllers/messageController.js:102-116 | Counts the unread messages the user received. It is zero exactly when the user has none unread. |
| MessageController.SendRaisesReceiverCount | backend/controllers/messageController.js:41-108 | A sent message raises the receiver's unread count by one and leaves every other user's count unchanged; a message to oneself raises the sender's own count. |
| MessageController.MessageRead | backend/controllers/messageController.js:82-88 | Only the read flag changes, to true. |
| MessageController.MarkMessageAsRead | backend/controllers/messageController.js:77-99 | Only the receiver can mark a message read. The sender, anyone else, or an unknown id gets 404 "Message not found or unauthorized" and no change. |
| MessageController.ReadLowersCount | backend/controllers/messageController.js:82-88 | Reading one unread received message lowers the receiver's count by exactly one. |
| LostFoundController.NewItem | backend/controllers/lostFoundController.js:9-15 | A new item has the caller as reporter and the column default status "Open". It meets the table's CHECK constraints and column widths exactly when its category is "Lost" or "Found" and its title and contact information fit in 255 characters. |
| LostFoundController.StoredForm | backend/create_lost_found_table.js:10-13 | A title or contact information longer than 255 characters is refused, unless everything past the limit is spaces, which are cut off. A form that fits is stored as given, and the description and category are never changed. |
| LostFoundController.OverlongTitleRefused | backend/create_lost_found_table.js:10 | A title longer than 255 characters with a non-space character past the limit cannot be stored. |
| Db.Varchar | backend/create_lost_found_table.js:10-13 | Storing into a `VARCHAR(n)` column keeps a value of at most `n` characters. A longer one is refused exactly when a character past the limit is not a space, and is otherwise cut to a prefix. |
| LostFoundController.CreateItem | backend/controllers/lostFoundController.js:4-25 | The database refuses each of the following, and the handler answers 500 "Failed to report item" with nothing stored: a category other than Lost or Found, a title or contact information too long for its column, and a reporter with no user row. Otherwise one open item, as the columns store it, is appended and answered 201. |
| LostFoundController.OpenItems | backend/controllers/lostFoundController.js:30-36 | Exactly the open items whose reporter exists, newest first. Claimed items are never listed. |
| LostFoundController.GetAllItems | backend/controllers/lostFoundController.js:28-42 | Each open item, in order, with its reporter's name. |
| LostFoundController.MayClaim | backend/controllers/lostFoundController.js:60 | An admin may claim any item. Anyone else may claim exactly the items they reported. |
| LostFoundController.Claimed | backend/controllers/lostFoundController.js:64-70 | Only the status changes, to "Claimed". |
| LostFoundController.MarkAsClaimed | backend/controllers/lostFoundController.js:45-80 | An unknown id gives 404 "Item not found". Someone who is neither the reporter nor an admin gets 403 "Unauthorized to modify this item". Neither changes anything. Otherwise only that item becomes Claimed, also when it already was. |
| LostFoundController.ClaimedLeavesBoard | backend/controllers/lostFoundController.js:30-36 | Once claimed, an item is gone from the board. Every other listed item stays listed. |
| LostFoundController.ClaimTwice | backend/controllers/lostFoundController.js:64-70 | Claiming twice gives the same row as claiming once. |
| StudentController.InsertByName | backend/controllers/studentController.js:10 | Inserting into a name-sorted list keeps it sorted and adds exactly that row. |
| StudentController.SortByName | backend/controllers/studentController.js:10 | `ORDER BY name ASC` returns a permutation of the rows, sorted by name. |
| StudentController.AllStudents | backend/controllers/studentController.js:4-17 | Exactly the active students, each once, sorted by name. Staff, admins and deactivated students are excluded, and no password is returned. |
| StudentController.IssueHistory | backend/controllers/studentController.js:37-43 | Exactly that student's issues, newest first. |
| StudentController.StudentDetails | backend/controllers/studentController.js:20-53 | 404 "Student not found" unless an active student has that id. Otherwise that student's summary with their issue history. |
| StudentController.StudentWithId | backend/controllers/studentController.js:61-64 | The deactivation guard matches only the student with that id, and it matches whether or not that student is active. |
| StudentController.StudentGuardFinds | backend/controllers/studentController.js:61-68 | The guard query finds a row exactly when the user with that id exists and is a student, active or not. |
| StudentController.Deactivated | backend/controllers/studentController.js:71-72 | Only the active flag changes, to false. |
| StudentController.DeactivatedKeepsUsers | backend/controllers/studentController.js:71-72 | Deactivating a user keeps every id and every email where it was, so ids stay serial and emails stay unique. |
| StudentController.DeactivateStudent | backend/controllers/studentController.js:56-84 | 404 unless a student, active or not, has that id. Otherwise only that row's active flag is cleared, and it answers with the id, name and email. No other table changes. |
| StudentController.DeactivatedDisappears | backend/controllers/studentController.js:60-74 | After deactivation the student is gone from the roster and their details answer 404. The deactivation guard still finds them, so deactivating again succeeds. |
| StudentController.DeactivatedStillLogsIn | backend/controllers/studentController.js:71-72 | Deactivation changes no login result: a deactivated student can still log in. |
| CommentController.AddComment | backend/controllers/commentController.js:4-25 | The issue comes from the path and the author from the caller, never from the body. One row is appended and answered 201 with the author's name, NULL if unknown. |
| CommentController.IssueComments | backend/controllers/commentController.js:31-37 | Exactly that issue's comments whose author exists, oldest first. |
| CommentController.CommentsByIssueId | backend/controllers/commentController.js:28-44 | Each of those comments, in order, with its author's name and role. |
| CommentController.AddedCommentComesLast | backend/controllers/commentController.js:31-37 | A new comment by a known user comes last in its issue's thread, after the earlier ones in their order. Other threads do not change. |
| AnnouncementController.CreateAnnouncement | backend/controllers/announcementController.js:3-21 | One row is appended and answered 201. |
| AnnouncementController.AllAnnouncements | backend/controllers/announcementController.js:23-33 | Every announcement once, newest first. |
| AnnouncementController.NewestHeadsListing | backend/controllers/announcementController.js:25-27 | The announcement just posted heads the next listing, and the earlier listing follows unchanged. |
| IssueContext.WithDefaults | hostel-frontend/src/context/IssueContext.jsx:14-20 | The new issue has every property `newIssue` supplies, with its value. Id, status "Pending", today's date and priority "Medium" fill in only what it omits. |
| IssueContext.Stats | hostel-frontend/src/context/IssueContext.jsx:24-29 | `total` is the number of issues, `pending` and `resolved` count the statuses, and pending + resolved never exceeds total. |
| IssueContext.AddIssueStats | hostel-frontend/src/context/IssueContext.jsx:13-29 | Adding an issue raises the total by one. It raises pending by one exactly when the issue's status is "Pending", or omitted, and resolved exactly when its status is "Resolved". |
| IssueContext.SeedStats | hostel-frontend/src/context/IssueContext.jsx:6-11 | The seeded store shows 4 issues: 2 pending and 1 resolved. |
| IssueContext.IssueProvider.constructor | hostel-frontend/src/context/IssueContext.jsx:6-11 | The store starts with the four seed issues. |
| IssueContext.IssueProvider.AddIssue | hostel-frontend/src/context/IssueContext.jsx:13-22 | The new issue, defaults filled in, goes to index 0. The earlier issues follow in their order, and the list grows by exactly one. |
| IssueContext.IssueProvider.GetStats | hostel-frontend/src/context/IssueContext.jsx:24-29 | `total` equals the number of issues held, and pending + resolved never exceeds it. |
| Text.Split | backend/middlewares/authMiddleware.js:15 | `split(" ")` always gives at least one field, and no field contains the separator. |
| Text.LexLe | backend/controllers/studentController.js:10 | `ORDER BY name ASC` under the C collation: code-point order, with a prefix before its extensions. |
| Text.LexLeTotal | backend/controllers/studentController.js:10 | Any two names are ordered one way or the other. |
| Text.LexLeTransitive | backend/controllers/studentController.js:10 | The name order is transitive. |
| Text.LexLeAntisymmetric | backend/controllers/studentController.js:10 | Two names ordered each before the other are equal, so only equal names tie. |
| Js.ToString | backend/controllers/issueController.js:18 | `String(v)` of a string is the string itself, and `String(v)` is "true" exactly for the boolean true and the string "true". |
| Js.ParseInt | backend/controllers/notificationController.js:23-24 | `parseInt` gives NaN for a blank value, and for one whose first non-blank character is neither a digit nor a sign. A negative result comes only from a leading minus. |
| Js.ParseIntRoundTrip | backend/controllers/notificationController.js:23-24 | `parseInt` reads back the decimal rendering of every non-negative integer. |
| Js.ParseIntOr | backend/controllers/notificationController.js:23-24 | `parseInt(q) \|\| d` is `d` when the query is absent, unparsable or zero. Otherwise it is the parsed integer. |
| Js.ParseIntOrNonNumeric | backend/controllers/notificationController.js:23-24 | A query that does not start with a digit or sign (after blanks) falls back to the default. |
| Js.NatToStringInjective | backend/controllers/messageController.js:66 | Different ids print as different decimal strings. |
| Listing.Page | backend/controllers/notificationController.js:27-31 | `LIMIT l OFFSET o` returns at most `l` rows: the rows from position `o` on, in order. |
| Listing.PagesTile | backend/controllers/notificationController.js:27-31 | Two consecutive pages together are the page of their combined size. |
| Db.Database.Valid | backend/create_lost_found_table.js:8-14 | The invariant every handler keeps: each table has SERIAL ids in insertion order, emails are unique, and every lost-and-found row meets its CHECK constraints and column widths. |
| Db.Database.TablesInOrder | backend/controllers/issueController.js:56 | In a valid database every table is in id order, which the `ORDER BY created_at` listings assume. |

## Left out

- Socket delivery is not modelled: no connections, rooms or acknowledgements. `SendMessage` only
  decides whether and what it emits. Whether a socket server is attached is the parameter
  `ioAttached`, since the server file that would attach it is not part of this model.
- bcrypt and JWT internals are not modelled; hashing and signing are values passed in.
- Token expiry is not modelled. A token that `verify` refuses, expired included, is simply rejected.
- The extra claims `iat` and `exp` that `jwt.verify` adds to `req.user` are not modelled. The model
  keeps only `id` and `role`.
- Database failures (lost connection, timeouts) leading to each handler's generic 500 are not
  modelled. The input-driven 500s that are modelled:
  - a CHECK, column-width or foreign-key violation on a lost-and-found item;
  - a LIMIT or OFFSET that is negative or beyond the `bigint` range;
  - a missing `req.user` or sender row.
- The widths of the other tables' `VARCHAR` columns are not modelled, since their schemas are not part
  of this model. There an over-long value is stored as given, where PostgreSQL would answer 500.
- NotificationController.GetNotifications: `parseInt` yields a double, which rounds integers above
  2^53; the model keeps them exact. A limit or offset just below the `bigint` maximum may round
  past it and be refused by PostgreSQL, while the model answers a page.
- Concurrency is not modelled. Each handler runs alone, so the race between `createStudent`'s email
  check and its insert, and between `sendMessage`'s insert and its notification, cannot happen.
- Missing required body fields (title, description, name, email, password, content, message, and
  the `status` of `updateIssueStatus`) are not modelled: strings are always present here. NOT NULL
  violations, and the 500 that reading a missing field throws, are left out; an omitted `status`,
  which would write NULL, is among them. Fields the handlers default or test are modelled as `Option`.
- MessageController.SendMessage: `receiver_id` is a natural number here, so a negative receiver id,
  which `!receiver_id` lets through to the insert, is not modelled.
- JSON values of an unexpected type are not modelled. This covers a numeric string as
  `receiver_id`, a non-string `content`, and an explicit `null` `admin_note` (the default applies
  only to an absent note).
- Non-numeric path ids, which PostgreSQL rejects with a 500, are not modelled; path ids are integers.
- `created_at` is represented by the serial id. Two rows with the same timestamp, and clock skew,
  are not modelled.
- A failed insert still consumes a SERIAL value in PostgreSQL. The model keeps ids dense, which does
  not affect any order it states.
- Ids and counts are unbounded; the overflow of PostgreSQL's 32-bit `INTEGER` is not modelled.
- `ORDER BY name` is compared code point by code point, the C collation. Locale collations are not
  modelled, and rows with equal names may come in either order.
- `substring(0, 50)` counts UTF-16 code units in JavaScript. The model counts code points, which
  differs only outside the Basic Multilingual Plane.
- The schemas of the `users`, `issues`, `comments`, `messages` and `notifications` tables are not
  part of this model. Inserts there are taken to succeed with any user or issue id; only the
  lost-and-found table's constraints are known.
- `IssueController.GetStaff`: the query has no ORDER BY, so PostgreSQL may return rows in any order.
  The model returns table order.
- The success bodies' `message` strings are not modelled (for example "Issue created successfully").
  Each handler's result carries the status and the row it returns.
- The routers other than the issue and auth routers are not mounted in `backend/src/index.js`, and
  `issueRoutes.js` mounts only `createissue`. Every handler is modelled as the function or method it
  is, with the middleware chain its router file gives it; mounting is not modelled.
- `IssueContext.IssueProvider.AddIssue`: React's batching is not modelled. The source builds the new
  list from the `issues` of the render that created `addIssue`, so two calls within one render keep
  only the second issue. The model applies each call to the current list.
- The `id` that `Date.now()` supplies, and the ISO timestamp the date is cut from, are parameters.

## Findings

| source | as written | input that shows it | evidently intended | confidence | as-written member | corrected member |
|---|---|---|---|---|---|---|
| backend/routes/issueRoutes.js:6 | `createissue` is mounted without `authenticate`, so `req.user` is never set. Reading `req.user.id` throws, so every report is answered 500 "Failed to create issue" and nothing is stored. | Any `POST /api/issues`, for example one carrying a valid `Bearer` token of a student. | `router.post("/", authenticate, isStudent, createissue)`: reporting is a student action, and the guarded routes chain `authenticate` then a role gate. | high; not executed | IssueController.CreateIssueRouteAsWritten | IssueController.CreateIssueRoute |
