/**
 * `isAdmin` and `isStudent`, and the order the routes chain them in: `authenticate` always runs
 * first, and a role gate sees only the identity it established.
 */
module RoleMiddleware {
  import opened Optional
  import opened Http
  import opened AuthMiddleware
  import Crypto

  /** `isAdmin`: only the role "admin" proceeds; anyone else gets 403 "Admin Access only". */
  function IsAdmin(user: Identity): (g: Gate)
    ensures g.Pass? <==> user.role == AdminRole
    ensures g.Pass? ==> g.user == user
    ensures g.Reject? ==> g == Reject(Forbidden, "Admin Access only")
  {
    if user.role != AdminRole then Reject(Forbidden, "Admin Access only") else Pass(user)
  }

  /** `isStudent`: only the role "student" proceeds; anyone else gets 403 "Student Access only". */
  function IsStudent(user: Identity): (g: Gate)
    ensures g.Pass? <==> user.role == StudentRole
    ensures g.Pass? ==> g.user == user
    ensures g.Reject? ==> g == Reject(Forbidden, "Student Access only")
  {
    if user.role != StudentRole then Reject(Forbidden, "Student Access only") else Pass(user)
  }

  /** A route's middleware chain `authenticate, gate`: the gate runs only once authentication passed. */
  function Guarded(header: Option<string>, verify: string -> Option<Identity>, gate: Identity -> Gate): (g: Gate)
    ensures Authenticate(header, verify).Reject? ==> g == Authenticate(header, verify)
    ensures g.Pass? <==> Authenticate(header, verify).Pass? && gate(Authenticate(header, verify).user).Pass?
  {
    match Authenticate(header, verify)
    case Reject(status, message) => Reject(status, message)
    case Pass(user) => gate(user)
  }

  /** A staff member is neither an admin nor a student, so both role gates refuse them. */
  lemma StaffPassesNeitherGate(user: Identity)
    requires user.role == StaffRole
    ensures IsAdmin(user) == Reject(Forbidden, "Admin Access only")
    ensures IsStudent(user) == Reject(Forbidden, "Student Access only")
  {
  }

  /**
   * On an admin route (`authenticate, isAdmin`), a missing or unverifiable token is answered 401 and
   * never 403; a verified non-admin gets 403; a verified admin proceeds with its identity.
   */
  lemma AdminRouteOrder(header: Option<string>, verify: string -> Option<Identity>)
    ensures Authenticate(header, verify).Reject? ==>
              Guarded(header, verify, IsAdmin) == Authenticate(header, verify) &&
              Guarded(header, verify, IsAdmin).status == Unauthorized
    ensures Authenticate(header, verify).Pass? ==>
              var user := Authenticate(header, verify).user;
              Guarded(header, verify, IsAdmin) == (if user.role == AdminRole then Pass(user) else Reject(Forbidden, "Admin Access only"))
  {
  }

  /** A student's genuine token on an admin route gets 403 "Admin Access only": forbidden, not unauthorized. */
  lemma StudentTokenOnAdminRoute(id: nat, tokens: Crypto.TokenService)
    requires tokens.Sound()
    ensures Guarded(Some("Bearer " + tokens.sign(Identity(id, StudentRole), Crypto.TokenLifetime)), tokens.verify, IsAdmin)
            == Reject(Forbidden, "Admin Access only")
  {
    SignedTokenAuthenticates("Bearer", Identity(id, StudentRole), tokens);
    assert "Bearer " + tokens.sign(Identity(id, StudentRole), Crypto.TokenLifetime)
        == "Bearer" + " " + tokens.sign(Identity(id, StudentRole), Crypto.TokenLifetime);
  }
}
