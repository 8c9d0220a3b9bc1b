/**
 * The admin's student roster: the active students by name, one student's details with their
 * issue history, and deactivation, a soft delete that only clears the active flag.
 */
module StudentController {
  import opened Optional
  import opened Http
  import opened Listing
  import opened Text
  import opened Db
  import opened Crypto
  import AuthController

  /** The columns the roster and the details return (no password, role or active flag). */
  datatype StudentSummary = StudentSummary(
    id: nat, name: string, email: string,
    hostelName: Option<string>, blockName: Option<string>, roomNumber: Option<string>)

  function SummaryOf(u: User): StudentSummary {
    StudentSummary(u.id, u.name, u.email, u.hostelName, u.blockName, u.roomNumber)
  }

  /** `role = 'student' AND is_active = true`. */
  predicate ActiveStudent(u: User) {
    u.role == StudentRole && u.isActive
  }

  predicate SortedByName(s: seq<StudentSummary>) {
    forall i, j :: 0 <= i < j < |s| ==> LexLe(s[i].name, s[j].name)
  }

  /** Place `x` into a name-sorted list. */
  function InsertByName(x: StudentSummary, s: seq<StudentSummary>): (r: seq<StudentSummary>)
    requires SortedByName(s)
    ensures SortedByName(r)
    ensures multiset(r) == multiset(s) + multiset{x}
  {
    if s == [] then [x]
    else if LexLe(x.name, s[0].name) then
      assert forall j :: 0 < j < |s| ==> LexLe(s[0].name, s[j].name);
      forall j | 0 < j < |s| ensures LexLe(x.name, s[j].name) {
        LexLeTransitive(x.name, s[0].name, s[j].name);
      }
      assert s == [s[0]] + s[1..];
      [x] + s
    else
      LexLeTotal(x.name, s[0].name);
      var rest := InsertByName(x, s[1..]);
      forall e | e in rest ensures LexLe(s[0].name, e.name) {
        assert e in multiset(rest);
        if e != x {
          assert e in multiset(s[1..]);
          var j :| 0 <= j < |s[1..]| && s[1..][j] == e;
          assert s[j + 1] == e;
        }
      }
      assert s == [s[0]] + s[1..];
      [s[0]] + rest
  }

  /** `ORDER BY name ASC`: the same rows, in name order (rows with equal names in either order). */
  function SortByName(s: seq<StudentSummary>): (r: seq<StudentSummary>)
    ensures SortedByName(r)
    ensures multiset(r) == multiset(s)
  {
    if s == [] then []
    else
      assert s == [s[0]] + s[1..];
      InsertByName(s[0], SortByName(s[1..]))
  }

  /**
   * `getAllStudents`: exactly the active students, each once, sorted by name; staff, admins and
   * deactivated students are left out.
   */
  function AllStudents(users: seq<User>): (r: seq<StudentSummary>)
    ensures SortedByName(r)
    ensures multiset(r) == multiset(MapRows(Select(users, ActiveStudent), SummaryOf))
    ensures forall u :: u in users && ActiveStudent(u) ==> SummaryOf(u) in r
    ensures forall s :: s in r ==> exists u :: u in users && ActiveStudent(u) && s == SummaryOf(u)
  {
    var rows := Select(users, ActiveStudent);
    var summaries := MapRows(rows, SummaryOf);
    MapRowsMembers(rows, SummaryOf);
    var r := SortByName(summaries);
    assert forall s :: s in r <==> s in multiset(summaries);
    forall s | s in r ensures exists u :: u in users && ActiveStudent(u) && s == SummaryOf(u) {
      assert s in summaries;
      var k :| 0 <= k < |summaries| && summaries[k] == s;
      assert rows[k] in rows;
    }
    r
  }

  /** An issue row of the history: `id, title, description, category, priority, status, admin_note`. */
  datatype IssueSummary = IssueSummary(
    id: nat, title: string, description: string, category: string, priority: string, status: string,
    adminNote: Option<string>)

  function IssueSummaryOf(i: Issue): IssueSummary {
    IssueSummary(i.id, i.title, i.description, i.category, i.priority, i.status, i.adminNote)
  }

  /** The student's issues, newest first, in the history's columns. */
  function IssueHistory(issues: seq<Issue>, userId: int): (r: seq<IssueSummary>)
    requires Increasing(issues, IssueId)
    ensures forall h :: h in r <==> exists i :: i in issues && i.userId == userId && h == IssueSummaryOf(i)
    ensures forall j, k :: 0 <= j < k < |r| ==> r[j].id > r[k].id
  {
    var rows := NewestFirst(issues, ReportedBy(userId), IssueId);
    MapRowsMembers(rows, IssueSummaryOf);
    var r := MapRows(rows, IssueSummaryOf);
    forall h | h in r ensures exists i :: i in issues && i.userId == userId && h == IssueSummaryOf(i) {
      var k :| 0 <= k < |r| && r[k] == h;
      assert rows[k] in rows;
    }
    r
  }

  /** The details response: the student's summary with its `issues` array attached. */
  datatype StudentDetail = StudentDetail(student: StudentSummary, issues: seq<IssueSummary>)

  function ActiveStudentWithId(id: int): User -> bool {
    (u: User) => u.id == id && ActiveStudent(u)
  }

  /**
   * `getStudentDetails`: 404 "Student not found" unless an active student has that id; otherwise
   * that student's summary and issue history.
   */
  function StudentDetails(users: seq<User>, issues: seq<Issue>, id: int): (r: Result<StudentDetail>)
    requires Increasing(issues, IssueId)
    ensures r.Err? <==> forall u :: u in users && u.id == id ==> !ActiveStudent(u)
    ensures r.Err? ==> r == Err(NotFound, "Student not found")
    ensures r.Ok? ==>
              && r.status == OK
              && (exists u :: u in users && u.id == id && ActiveStudent(u) && r.value.student == SummaryOf(u))
              && r.value.issues == IssueHistory(issues, id)
  {
    match Find(users, ActiveStudentWithId(id))
    case None => Err(NotFound, "Student not found")
    case Some(u) => Ok(OK, StudentDetail(SummaryOf(u), IssueHistory(issues, id)))
  }

  /** `SELECT ... WHERE id = $1 AND role = 'student'`: the deactivation guard, which ignores the active flag. */
  function StudentWithId(id: int): (p: User -> bool)
    ensures forall u: User :: p(u) ==> u.id == id && u.role == StudentRole
    ensures forall u: User :: u.id == id && u.role == StudentRole ==> p(u) && p(u.(isActive := !u.isActive))
  {
    (u: User) => u.id == id && u.role == StudentRole
  }

  /** The guard finds a row exactly when the row with that id is a student's, active or not. */
  lemma StudentGuardFinds(users: seq<User>, id: int)
    requires Serial(users, UserId)
    ensures Find(users, StudentWithId(id)).Some? <==> 1 <= id <= |users| && users[id - 1].role == StudentRole
  {
    var p := StudentWithId(id);
    if 1 <= id <= |users| && users[id - 1].role == StudentRole {
      assert p(users[id - 1]) && users[id - 1] in users;
    }
    if Find(users, p).Some? {
      var k :| 0 <= k < |users| && users[k] == Find(users, p).value;
      assert users[k].id == k + 1;
    }
  }

  /** `SET is_active = false`: every other column stays. */
  function Deactivated(u: User): (r: User)
    ensures !r.isActive && r.(isActive := u.isActive) == u
  {
    u.(isActive := false)
  }

  /** Clearing one user's active flag keeps every id and every email where it was. */
  lemma DeactivatedKeepsUsers(users: seq<User>, k: nat)
    requires Serial(users, UserId) && UniqueEmails(users) && k < |users|
    ensures var after := users[k := Deactivated(users[k])];
            Serial(after, UserId) && UniqueEmails(after)
  {
    var after := users[k := Deactivated(users[k])];
    forall i | 0 <= i < |after| ensures after[i].id == users[i].id && after[i].email == users[i].email {
    }
  }

  /** The `RETURNING id, name, email` of the deactivation. */
  datatype DeactivatedStudent = DeactivatedStudent(id: nat, name: string, email: string)

  /**
   * `deactivateStudent`: 404 "Student not found" unless a student (active or not) has that id;
   * otherwise only that row's active flag is cleared. Issues and every other table stay.
   */
  method DeactivateStudent(db: Database, id: int) returns (r: Result<DeactivatedStudent>)
    requires db.Valid()
    modifies db`users
    ensures db.Valid()
    ensures !(1 <= id <= |old(db.users)| && old(db.users)[id - 1].role == StudentRole) ==>
              r == Err(NotFound, "Student not found") && db.users == old(db.users)
    ensures 1 <= id <= |old(db.users)| && old(db.users)[id - 1].role == StudentRole ==>
              var u := old(db.users)[id - 1];
              r == Ok(OK, DeactivatedStudent(u.id, u.name, u.email)) && db.users == old(db.users)[id - 1 := Deactivated(u)]
  {
    var check := Find(db.users, StudentWithId(id));
    StudentGuardFinds(db.users, id);
    if check.None? {
      r := Err(NotFound, "Student not found");
      return;
    }
    UpdateSerial(db.users, UserId, id, Deactivated);
    DeactivatedKeepsUsers(db.users, id - 1);
    var u := db.users[id - 1];
    db.users := UpdateWhere(db.users, KeyIs(UserId, id), Deactivated);
    r := Ok(OK, DeactivatedStudent(u.id, u.name, u.email));
  }

  /**
   * After deactivation the student is gone from the roster and their details answer 404, but the
   * deactivation guard still finds them, so deactivating again succeeds.
   */
  lemma {:induction false} DeactivatedDisappears(users: seq<User>, issues: seq<Issue>, id: int)
    requires Serial(users, UserId) && Increasing(issues, IssueId)
    requires 1 <= id <= |users| && users[id - 1].role == StudentRole
    ensures var after := users[id - 1 := Deactivated(users[id - 1])];
            && (forall s :: s in AllStudents(after) ==> s.id != id)
            && StudentDetails(after, issues, id) == Err(NotFound, "Student not found")
            && after[id - 1].role == StudentRole
  {
    var after := users[id - 1 := Deactivated(users[id - 1])];
    forall u | u in after && u.id == id ensures !ActiveStudent(u) {
      var k :| 0 <= k < |after| && after[k] == u;
      assert after[k].id == k + 1 by { assert after[k].id == users[k].id; }
    }
    forall s | s in AllStudents(after) ensures s.id != id {
      var u :| u in after && ActiveStudent(u) && s == SummaryOf(u);
    }
  }

  /** Deactivation does not lock anyone out: login reads neither the active flag nor anything it changes. */
  lemma DeactivatedStillLogsIn(
    users: seq<User>, id: int, email: string, password: string, hasher: PasswordHasher, tokens: TokenService)
    requires Serial(users, UserId) && 1 <= id <= |users|
    ensures AuthController.Login(users[id - 1 := Deactivated(users[id - 1])], email, password, hasher, tokens)
         == AuthController.Login(users, email, password, hasher, tokens)
  {
    UpdateSerial(users, UserId, id, Deactivated);
    FindUpdateWhere(users, EmailIs(email), KeyIs(UserId, id), Deactivated);
  }
}
