/** `createStudent`: the admin-only registration of a student or staff account. */
module AdminController {
  import opened Optional
  import opened Http
  import opened Listing
  import opened Db
  import opened Crypto

  /** The request body; `role` may be omitted. */
  datatype NewUserForm = NewUserForm(
    name: string, email: string, password: string, role: Option<string>,
    hostelName: Option<string>, blockName: Option<string>, roomNumber: Option<string>,
    staffSpecialty: Option<string>)

  /** The `RETURNING` column list of the insert: every column but the password hash (and the active flag). */
  datatype UserRecord = UserRecord(
    id: nat, name: string, email: string, role: string,
    hostelName: Option<string>, blockName: Option<string>, roomNumber: Option<string>,
    staffSpecialty: Option<string>)

  /** The row the insert adds: hashed password, role "student" unless given, active. */
  function NewUserRow(id: nat, form: NewUserForm, hasher: PasswordHasher): (u: User)
    ensures u.id == id && u.name == form.name && u.email == form.email
    ensures u.password == hasher.hash(form.password)
    ensures u.role == (if form.role.Some? then form.role.value else StudentRole)
    ensures u.hostelName == form.hostelName && u.blockName == form.blockName
    ensures u.roomNumber == form.roomNumber && u.staffSpecialty == form.staffSpecialty
    ensures u.isActive
  {
    User(id, form.name, form.email, hasher.hash(form.password), form.role.GetOr(StudentRole),
         form.hostelName, form.blockName, form.roomNumber, form.staffSpecialty, true)
  }

  function RecordOf(u: User): (r: UserRecord)
    ensures r.id == u.id && r.name == u.name && r.email == u.email && r.role == u.role
    ensures r.hostelName == u.hostelName && r.blockName == u.blockName && r.roomNumber == u.roomNumber
    ensures r.staffSpecialty == u.staffSpecialty
  {
    UserRecord(u.id, u.name, u.email, u.role, u.hostelName, u.blockName, u.roomNumber, u.staffSpecialty)
  }

  /** The response never depends on the stored hash: rows differing only in their password answer alike. */
  lemma RecordHidesPassword(u: User, password: string)
    ensures RecordOf(u.(password := password)) == RecordOf(u)
  {
  }

  /**
   * An email already present is refused with 400 "User already exists" and nothing is inserted;
   * otherwise exactly one row is appended, and afterwards exactly one user has that email.
   */
  method CreateStudent(db: Database, form: NewUserForm, hasher: PasswordHasher) returns (r: Result<UserRecord>)
    requires db.Valid()
    modifies db`users
    ensures db.Valid()
    ensures UserByEmail(old(db.users), form.email).Some? ==>
              r == Err(BadRequest, "User already exists") && db.users == old(db.users)
    ensures UserByEmail(old(db.users), form.email).None? ==>
              var u := NewUserRow(|old(db.users)| + 1, form, hasher);
              db.users == old(db.users) + [u] && r == Ok(Created, RecordOf(u))
    ensures r.Ok? ==> Count(db.users, EmailIs(form.email)) == 1
  {
    var existing := UserByEmail(db.users, form.email);
    if existing.Some? {
      r := Err(BadRequest, "User already exists");
      return;
    }
    var u := NewUserRow(|db.users| + 1, form, hasher);
    forall i | 0 <= i < |db.users| ensures db.users[i].email != form.email {
      assert db.users[i] in db.users;
    }
    SelectNone(db.users, EmailIs(form.email));
    SelectAppend(db.users, [u], EmailIs(form.email));
    assert [u][1..] == [];
    db.users := db.users + [u];
    r := Ok(Created, RecordOf(u));
  }
}
