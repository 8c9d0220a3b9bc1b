/**
 * The issue lifecycle: a student reports an issue (status "open"), an admin opens it for a
 * staff member ("in_progress") and resolves it with a note ("resolved"); `updateIssueStatus`
 * writes any status at all. Three listings (all, public, the caller's) and the staff roster.
 */
module IssueController {
  import opened Optional
  import opened Http
  import opened Listing
  import opened Js
  import opened Db
  import AuthMiddleware
  import RoleMiddleware

  const OpenStatus := "open"
  const InProgressStatus := "in_progress"
  const ResolvedStatus := "resolved"
  const DefaultCategory := "general"
  const DefaultPriority := "medium"
  const DefaultNote := "Resolved by admin"

  /** The multipart body of a report; `category`, `priority` and `is_public` may be omitted. */
  datatype IssueForm = IssueForm(
    title: string, category: Option<string>, priority: Option<string>, description: string,
    isPublic: Option<JsValue>)

  /**
   * `String(is_public) === 'true'` with `is_public` defaulting to `false`: only the boolean true
   * and the string "true" (what a form sends) mark an issue public.
   */
  function PublicFlag(v: Option<JsValue>): (b: bool)
    ensures b <==> v == Some(JsBool(true)) || v == Some(JsString("true"))
  {
    ToString(v.GetOr(JsBool(false))) == "true"
  }

  /** The uploaded file's path with every backslash turned into a forward slash. */
  function ForwardSlashes(path: string): (r: string)
    ensures |r| == |path|
    ensures '\\' !in r
    ensures forall k :: 0 <= k < |path| && path[k] != '\\' ==> r[k] == path[k]
    ensures forall k :: 0 <= k < |path| && path[k] == '\\' ==> r[k] == '/'
  {
    if path == [] then []
    else [if path[0] == '\\' then '/' else path[0]] + ForwardSlashes(path[1..])
  }

  /** A path with no backslash is left as it is, so normalising twice is normalising once. */
  lemma {:induction false} ForwardSlashesKeepsClean(path: string)
    requires '\\' !in path
    ensures ForwardSlashes(path) == path
  {
    if path != [] {
      assert path[0] in path;
      ForwardSlashesKeepsClean(path[1..]);
      assert [path[0]] + path[1..] == path;
    }
  }

  lemma ForwardSlashesIdempotent(path: string)
    ensures ForwardSlashes(ForwardSlashes(path)) == ForwardSlashes(path)
  {
    ForwardSlashesKeepsClean(ForwardSlashes(path));
  }

  /**
   * The row `createissue` inserts: the caller as reporter, status "open", the defaults for an
   * omitted category and priority, the normalised upload path, and the hostel, block and room
   * copied from the reporter's user row (all NULL when that row is missing).
   */
  function NewIssue(id: nat, userId: nat, form: IssueForm, file: Option<string>, reporter: Option<User>): (i: Issue)
    ensures i.id == id && i.userId == userId && i.status == OpenStatus
    ensures i.title == form.title && i.description == form.description
    ensures i.category == form.category.GetOr(DefaultCategory)
    ensures i.priority == form.priority.GetOr(DefaultPriority)
    ensures i.isPublic <==> form.isPublic == Some(JsBool(true)) || form.isPublic == Some(JsString("true"))
    ensures i.imageUrl.Some? <==> file.Some?
    ensures i.imageUrl.Some? ==> i.imageUrl.value == ForwardSlashes(file.value)
    ensures i.imageUrl.Some? ==> '\\' !in i.imageUrl.value && |i.imageUrl.value| == |file.value|
    ensures reporter.Some? ==>
              i.hostelName == reporter.value.hostelName && i.blockName == reporter.value.blockName &&
              i.roomNumber == reporter.value.roomNumber
    ensures reporter.None? ==> i.hostelName == None && i.blockName == None && i.roomNumber == None
    ensures i.adminNote == None && i.assignedUserId == None
  {
    var imageUrl := if file.Some? then Some(ForwardSlashes(file.value)) else None;
    match reporter
    case Some(u) =>
      Issue(id, userId, form.title, form.category.GetOr(DefaultCategory), form.priority.GetOr(DefaultPriority),
            form.description, PublicFlag(form.isPublic), OpenStatus, imageUrl,
            u.hostelName, u.blockName, u.roomNumber, None, None)
    case None =>
      Issue(id, userId, form.title, form.category.GetOr(DefaultCategory), form.priority.GetOr(DefaultPriority),
            form.description, PublicFlag(form.isPublic), OpenStatus, imageUrl,
            None, None, None, None, None)
  }

  /**
   * `createissue`. Its route runs no authentication, so the caller may be absent; reading the
   * missing `req.user.id` then throws and the handler answers 500 "Failed to create issue" before
   * any insert. Otherwise one row is appended and returned with 201.
   */
  method CreateIssue(db: Database, caller: Option<Identity>, form: IssueForm, file: Option<string>)
    returns (r: Result<Issue>)
    requires db.Valid()
    modifies db`issues
    ensures db.Valid()
    ensures caller.None? ==> r == Err(InternalError, "Failed to create issue") && db.issues == old(db.issues)
    ensures caller.Some? ==>
              var i := NewIssue(|old(db.issues)| + 1, caller.value.id, form, file, UserById(db.users, caller.value.id));
              r == Ok(Created, i) && db.issues == old(db.issues) + [i]
  {
    if caller.None? {
      r := Err(InternalError, "Failed to create issue");
      return;
    }
    var reporter := UserById(db.users, caller.value.id);
    var i := NewIssue(|db.issues| + 1, caller.value.id, form, file, reporter);
    db.issues := db.issues + [i];
    r := Ok(Created, i);
  }

  /**
   * `POST /api/issues` as the router mounts it: `createissue` with no `authenticate` before it, so
   * nothing ever sets `req.user`. Whatever the request carries, it is answered 500 and nothing is
   * inserted.
   */
  method CreateIssueRouteAsWritten(db: Database, header: Option<string>, form: IssueForm, file: Option<string>)
    returns (r: Result<Issue>)
    requires db.Valid()
    modifies db`issues
    ensures db.Valid()
    ensures r == Err(InternalError, "Failed to create issue") && db.issues == old(db.issues)
  {
    r := CreateIssue(db, None, form, file);
  }

  /**
   * The route with `authenticate, isStudent` in front of the handler, the chain the guarded routes
   * use with a role gate, since reporting is a student action (the upload middleware only supplies
   * `file`): a request authentication rejects
   * gets its 401, a non-student gets 403, and neither inserts anything; a student's request creates
   * the issue with the token's user as reporter.
   */
  method CreateIssueRoute(
    db: Database, header: Option<string>, verify: string -> Option<Identity>, form: IssueForm, file: Option<string>)
    returns (r: Result<Issue>)
    requires db.Valid()
    modifies db`issues
    ensures db.Valid()
    ensures AuthMiddleware.Authenticate(header, verify).Reject? ==>
              var g := AuthMiddleware.Authenticate(header, verify);
              r == Err(g.status, g.message) && r.status == Unauthorized && db.issues == old(db.issues)
    ensures AuthMiddleware.Authenticate(header, verify).Pass? &&
            AuthMiddleware.Authenticate(header, verify).user.role != StudentRole ==>
              r == Err(Forbidden, "Student Access only") && db.issues == old(db.issues)
    ensures AuthMiddleware.Authenticate(header, verify).Pass? &&
            AuthMiddleware.Authenticate(header, verify).user.role == StudentRole ==>
              var user := AuthMiddleware.Authenticate(header, verify).user;
              var i := NewIssue(|old(db.issues)| + 1, user.id, form, file, UserById(db.users, user.id));
              r == Ok(Created, i) && db.issues == old(db.issues) + [i]
  {
    match RoleMiddleware.Guarded(header, verify, RoleMiddleware.IsStudent)
    case Reject(status, message) =>
      r := Err(status, message);
    case Pass(user) =>
      r := CreateIssue(db, Some(user), form, file);
  }

  /** `SET status = $1`: only the status changes. */
  function WithStatus(i: Issue, status: string): (r: Issue)
    ensures r.status == status && r.id == i.id
    ensures r.(status := i.status) == i
  {
    i.(status := status)
  }

  /** `SET status = 'in_progress', assigned_user_id = $1`: the note and every other column stay. */
  function Opened(i: Issue, assignee: Option<nat>): (r: Issue)
    ensures r.status == InProgressStatus && r.assignedUserId == assignee && r.id == i.id
    ensures r.adminNote == i.adminNote
    ensures r.(status := i.status, assignedUserId := i.assignedUserId) == i
  {
    i.(status := InProgressStatus, assignedUserId := assignee)
  }

  /** `SET status = 'resolved', admin_note = $1`: the assignee and every other column stay. */
  function Resolved(i: Issue, note: string): (r: Issue)
    ensures r.status == ResolvedStatus && r.adminNote == Some(note) && r.id == i.id
    ensures r.assignedUserId == i.assignedUserId
    ensures r.(status := i.status, adminNote := i.adminNote) == i
  {
    i.(status := ResolvedStatus, adminNote := Some(note))
  }

  /** `SELECT ... FROM issues WHERE id = $1`. */
  function IssueById(issues: seq<Issue>, id: int): Option<Issue> {
    Find(issues, KeyIs(IssueId, id))
  }

  /**
   * `UPDATE issues SET ... WHERE id = $2 RETURNING *` with `f` as the SET list: an id that
   * matches no row gives 404 "Issue not found" and changes nothing; otherwise exactly that row is
   * replaced by `f` of it and returned with 200.
   */
  method UpdateIssue(db: Database, id: int, f: Issue -> Issue) returns (r: Result<Issue>)
    requires db.Valid()
    requires forall i :: f(i).id == i.id
    modifies db`issues
    ensures db.Valid()
    ensures IssueById(old(db.issues), id).None? ==>
              r == Err(NotFound, "Issue not found") && db.issues == old(db.issues)
    ensures IssueById(old(db.issues), id).Some? ==>
              var row := f(IssueById(old(db.issues), id).value);
              1 <= id <= |old(db.issues)| && r == Ok(OK, row) && db.issues == old(db.issues)[id - 1 := row]
  {
    FindSerial(db.issues, IssueId, id);
    UpdateSerial(db.issues, IssueId, id, f);
    var found := IssueById(db.issues, id);
    db.issues := UpdateWhere(db.issues, KeyIs(IssueId, id), f);
    if found.None? {
      r := Err(NotFound, "Issue not found");
    } else {
      r := Ok(OK, f(found.value));
    }
  }

  /** `updateIssueStatus`: any status string is written, unchecked; only that column changes. */
  method UpdateIssueStatus(db: Database, id: int, status: string) returns (r: Result<Issue>)
    requires db.Valid()
    modifies db`issues
    ensures db.Valid()
    ensures IssueById(old(db.issues), id).None? ==>
              r == Err(NotFound, "Issue not found") && db.issues == old(db.issues)
    ensures IssueById(old(db.issues), id).Some? ==>
              var row := WithStatus(IssueById(old(db.issues), id).value, status);
              1 <= id <= |old(db.issues)| && r == Ok(OK, row) && db.issues == old(db.issues)[id - 1 := row]
  {
    r := UpdateIssue(db, id, (i: Issue) => WithStatus(i, status));
  }

  /** `openIssue`: an omitted `assigned_user_id` is bound as NULL and clears the assignee. */
  method OpenIssue(db: Database, id: int, assignee: Option<nat>) returns (r: Result<Issue>)
    requires db.Valid()
    modifies db`issues
    ensures db.Valid()
    ensures IssueById(old(db.issues), id).None? ==>
              r == Err(NotFound, "Issue not found") && db.issues == old(db.issues)
    ensures IssueById(old(db.issues), id).Some? ==>
              var row := Opened(IssueById(old(db.issues), id).value, assignee);
              1 <= id <= |old(db.issues)| && r == Ok(OK, row) && db.issues == old(db.issues)[id - 1 := row]
  {
    r := UpdateIssue(db, id, (i: Issue) => Opened(i, assignee));
  }

  /** `resolveIssue`: an omitted note defaults to "Resolved by admin". */
  method ResolveIssue(db: Database, id: int, note: Option<string>) returns (r: Result<Issue>)
    requires db.Valid()
    modifies db`issues
    ensures db.Valid()
    ensures IssueById(old(db.issues), id).None? ==>
              r == Err(NotFound, "Issue not found") && db.issues == old(db.issues)
    ensures IssueById(old(db.issues), id).Some? ==>
              var row := Resolved(IssueById(old(db.issues), id).value, note.GetOr(DefaultNote));
              1 <= id <= |old(db.issues)| && r == Ok(OK, row) && db.issues == old(db.issues)[id - 1 := row]
  {
    r := UpdateIssue(db, id, (i: Issue) => Resolved(i, note.GetOr(DefaultNote)));
  }

  /** Resolving an issue a second time with the same note leaves the row as the first time did. */
  lemma ResolveTwice(i: Issue, note: string)
    ensures Resolved(Resolved(i, note), note) == Resolved(i, note)
  {
  }

  /**
   * Nothing in the handlers guards the lifecycle: a resolved issue can be opened again, and
   * `updateIssueStatus` can put it back to "open", keeping its note.
   */
  lemma ResolvedIsNotFinal(i: Issue, note: string, assignee: Option<nat>)
    ensures Opened(Resolved(i, note), assignee).status == InProgressStatus
    ensures WithStatus(Resolved(i, note), OpenStatus).status == OpenStatus
    ensures WithStatus(Resolved(i, note), OpenStatus).adminNote == Some(note)
  {
  }

  predicate IsPublic(i: Issue) { i.isPublic }

  /** `getAllIssues`' rows: every issue, newest first. */
  function AllIssues(issues: seq<Issue>): (r: seq<Issue>)
    requires Increasing(issues, IssueId)
    ensures |r| == |issues|
    ensures forall i :: i in r <==> i in issues
    ensures Decreasing(r, IssueId)
  {
    SelectAll(issues, Always);
    NewestFirst(issues, Always, IssueId)
  }

  /** `getPublicIssues`' rows: exactly the public issues, newest first. */
  function PublicIssues(issues: seq<Issue>): (r: seq<Issue>)
    requires Increasing(issues, IssueId)
    ensures forall i :: i in r <==> i in issues && i.isPublic
    ensures Decreasing(r, IssueId)
  {
    NewestFirst(issues, IsPublic, IssueId)
  }

  /** `getMyIssues`' rows: exactly the caller's issues, newest first. */
  function MyIssues(issues: seq<Issue>, userId: int): (r: seq<Issue>)
    requires Increasing(issues, IssueId)
    ensures forall i :: i in r <==> i in issues && i.userId == userId
    ensures Decreasing(r, IssueId)
  {
    NewestFirst(issues, ReportedBy(userId), IssueId)
  }

  /** An issue row with the names the two `LEFT JOIN users` attach (NULL where no user matches). */
  datatype IssueView = IssueView(issue: Issue, studentName: Option<string>, assignedStaffName: Option<string>)

  /** A public issue row with the reporter's name only. */
  datatype PublicIssueView = PublicIssueView(issue: Issue, studentName: Option<string>)

  function AssigneeName(users: seq<User>, i: Issue): Option<string> {
    match i.assignedUserId
    case Some(a) => NameOf(users, a)
    case None => None
  }

  function ViewOf(users: seq<User>, i: Issue): IssueView {
    IssueView(i, NameOf(users, i.userId), AssigneeName(users, i))
  }

  function PublicViewOf(users: seq<User>, i: Issue): PublicIssueView {
    PublicIssueView(i, NameOf(users, i.userId))
  }

  /** `getAllIssues`: each issue once, newest first, with its reporter's and assignee's names. */
  function GetAllIssues(users: seq<User>, issues: seq<Issue>): (r: seq<IssueView>)
    requires Increasing(issues, IssueId)
    ensures |r| == |issues|
    ensures forall k :: 0 <= k < |r| ==>
              r[k].issue in issues && r[k].studentName == NameOf(users, r[k].issue.userId) &&
              r[k].assignedStaffName == AssigneeName(users, r[k].issue)
    ensures forall i :: i in issues ==> ViewOf(users, i) in r
    ensures forall j, k :: 0 <= j < k < |r| ==> r[j].issue.id > r[k].issue.id
  {
    var rows := AllIssues(issues);
    MapRowsMembers(rows, (i: Issue) => ViewOf(users, i));
    MapRows(rows, (i: Issue) => ViewOf(users, i))
  }

  /** `getPublicIssues`: the public issues only, newest first, each with its reporter's name. */
  function GetPublicIssues(users: seq<User>, issues: seq<Issue>): (r: seq<PublicIssueView>)
    requires Increasing(issues, IssueId)
    ensures forall k :: 0 <= k < |r| ==>
              r[k].issue in issues && r[k].issue.isPublic && r[k].studentName == NameOf(users, r[k].issue.userId)
    ensures forall i :: i in issues && i.isPublic ==> PublicViewOf(users, i) in r
    ensures forall j, k :: 0 <= j < k < |r| ==> r[j].issue.id > r[k].issue.id
  {
    var rows := PublicIssues(issues);
    MapRowsMembers(rows, (i: Issue) => PublicViewOf(users, i));
    MapRows(rows, (i: Issue) => PublicViewOf(users, i))
  }

  /** `getMyIssues`: the caller's issues only, newest first, with both names. */
  function GetMyIssues(users: seq<User>, issues: seq<Issue>, caller: Identity): (r: seq<IssueView>)
    requires Increasing(issues, IssueId)
    ensures forall k :: 0 <= k < |r| ==>
              r[k].issue in issues && r[k].issue.userId == caller.id &&
              r[k].studentName == NameOf(users, caller.id) &&
              r[k].assignedStaffName == AssigneeName(users, r[k].issue)
    ensures forall i :: i in issues && i.userId == caller.id ==> ViewOf(users, i) in r
    ensures forall j, k :: 0 <= j < k < |r| ==> r[j].issue.id > r[k].issue.id
  {
    var rows := MyIssues(issues, caller.id);
    MapRowsMembers(rows, (i: Issue) => ViewOf(users, i));
    MapRows(rows, (i: Issue) => ViewOf(users, i))
  }

  /** A row of `getStaff`: `id, name, staff_specialty`. */
  datatype StaffMember = StaffMember(id: nat, name: string, staffSpecialty: Option<string>)

  predicate AssignsWork(u: User) {
    u.role == AdminRole || u.role == StaffRole
  }

  function StaffOf(u: User): StaffMember {
    StaffMember(u.id, u.name, u.staffSpecialty)
  }

  /**
   * `getStaff`: every admin and staff account, in table order (the query has no ORDER BY),
   * students and other roles excluded, without the password or any other column.
   */
  function GetStaff(users: seq<User>): (r: seq<StaffMember>)
    ensures |r| == Count(users, AssignsWork)
    ensures forall u :: u in users && AssignsWork(u) ==> StaffOf(u) in r
    ensures forall k :: 0 <= k < |r| ==> exists u :: u in users && AssignsWork(u) && r[k] == StaffOf(u)
  {
    var rows := Select(users, AssignsWork);
    MapRowsMembers(rows, StaffOf);
    var r := MapRows(rows, StaffOf);
    assert forall k :: 0 <= k < |r| ==> rows[k] in rows && r[k] == StaffOf(rows[k]);
    r
  }
}
