/** `login`: credentials in, a signed session token out. It only reads the users table. */
module AuthController {
  import opened Optional
  import opened Http
  import opened Listing
  import opened Db
  import opened Crypto
  import AuthMiddleware

  /** The `user` object of the login response: no email, no password hash. */
  datatype PublicUser = PublicUser(id: nat, name: string, role: string)

  /** The login response body: the token and the public part of the user. */
  datatype Session = Session(token: string, user: PublicUser)

  /** The one message for every rejected login, spelled as the handler spells it. */
  const BadCredentials := "Invaild Credentials"

  /**
   * `login`: the first user row with that email, if its stored hash accepts the password, gets a
   * token signed over exactly `{ id, role }` with a one-day lifetime; every failure, unknown email
   * or wrong password alike, is the same 401.
   */
  function Login(users: seq<User>, email: string, password: string, hasher: PasswordHasher, tokens: TokenService): (r: Result<Session>)
    ensures r.Err? ==> r == Err(Unauthorized, BadCredentials)
    ensures r.Ok? <==> UserByEmail(users, email).Some? && hasher.Compare(password, UserByEmail(users, email).value.password)
    ensures r.Ok? ==>
              var u := UserByEmail(users, email).value;
              && u in users && u.email == email
              && r.status == OK
              && r.value.user == PublicUser(u.id, u.name, u.role)
              && r.value.token == tokens.sign(Identity(u.id, u.role), TokenLifetime)
  {
    match UserByEmail(users, email)
    case None => Err(Unauthorized, BadCredentials)
    case Some(u) =>
      if !hasher.Compare(password, u.password) then Err(Unauthorized, BadCredentials)
      else Ok(OK, Session(tokens.sign(Identity(u.id, u.role), TokenLifetime), PublicUser(u.id, u.name, u.role)))
  }

  /** A user added with a fresh email and the hash of a password can log in with that password, as themself. */
  lemma RegisteredUserLogsIn(users: seq<User>, u: User, password: string, hasher: PasswordHasher, tokens: TokenService)
    requires forall x :: x in users ==> x.email != u.email
    requires u.password == hasher.hash(password)
    ensures Login(users + [u], u.email, password, hasher, tokens)
            == Ok(OK, Session(tokens.sign(Identity(u.id, u.role), TokenLifetime), PublicUser(u.id, u.name, u.role)))
  {
    SelectAppend(users, [u], EmailIs(u.email));
    SelectNone(users, EmailIs(u.email));
    assert Select([u], EmailIs(u.email)) == [u] by {
      assert [u][1..] == [];
    }
  }

  /**
   * The token a successful login hands out, sent back as `Bearer <token>`, authenticates as the
   * stored user's id and role (given a token service that verifies what it signs).
   */
  lemma LoginThenAuthenticate(users: seq<User>, email: string, password: string, hasher: PasswordHasher, tokens: TokenService)
    requires tokens.Sound()
    requires Login(users, email, password, hasher, tokens).Ok?
    ensures var u := UserByEmail(users, email).value;
            AuthMiddleware.Authenticate(Some("Bearer " + Login(users, email, password, hasher, tokens).value.token), tokens.verify)
            == AuthMiddleware.Pass(Identity(u.id, u.role))
  {
    var u := UserByEmail(users, email).value;
    var token := tokens.sign(Identity(u.id, u.role), TokenLifetime);
    AuthMiddleware.SignedTokenAuthenticates("Bearer", Identity(u.id, u.role), tokens);
    assert "Bearer " + token == "Bearer" + " " + token;
  }
}
