/** `authenticate`: the Authorization-header check every protected route runs first. */
module AuthMiddleware {
  import opened Optional
  import opened Http
  import opened Text
  import Crypto

  /** What a middleware does with a request: call `next()` once with `req.user` set, or answer and stop. */
  datatype Gate = Pass(user: Identity) | Reject(status: nat, message: string)

  /** `authHeader.split(" ")[1]` when that field exists and is non-empty (an empty string is falsy). */
  function BearerToken(header: string): (t: Option<string>)
    ensures t.Some? ==> t.value != [] && ' ' !in t.value
    ensures ' ' !in header ==> t.None?
  {
    var fields := Split(header, ' ');
    assert ' ' !in header ==> |fields| == 1 by {
      if ' ' !in header {
        SplitNoSeparator(header, ' ');
      }
    }
    if |fields| >= 2 && fields[1] != [] then Some(fields[1]) else None
  }

  /**
   * The middleware: no header (or an empty one) is 401 "No token Provided"; a header without a
   * second space-separated field is 401 "Invalid token format"; a token `verify` refuses is
   * 401 "Unauthorized Access"; otherwise the request proceeds with the token's claims as `req.user`.
   */
  function Authenticate(header: Option<string>, verify: string -> Option<Identity>): (g: Gate)
    ensures header.None? || header == Some([]) ==> g == Reject(Unauthorized, "No token Provided")
    ensures g.Reject? ==> g.status == Unauthorized
    ensures header.Some? && header.value != [] && BearerToken(header.value).None? ==>
              g == Reject(Unauthorized, "Invalid token format")
    ensures g.Pass? <==>
              header.Some? && BearerToken(header.value).Some? && verify(BearerToken(header.value).value).Some?
    ensures header.Some? && BearerToken(header.value).Some? && verify(BearerToken(header.value).value).None? ==>
              g == Reject(Unauthorized, "Unauthorized Access")
    ensures g.Pass? ==> Some(g.user) == verify(BearerToken(header.value).value)
  {
    if header.None? || header.value == [] then Reject(Unauthorized, "No token Provided")
    else match BearerToken(header.value)
      case None => Reject(Unauthorized, "Invalid token format")
      case Some(token) =>
        match verify(token)
        case None => Reject(Unauthorized, "Unauthorized Access")
        case Some(claims) => Pass(claims)
  }

  /** The scheme word is not checked: any space-free word, a space, then the token yields the token. */
  lemma BearerTokenAnyScheme(scheme: string, token: string)
    requires ' ' !in scheme && ' ' !in token && token != []
    ensures BearerToken(scheme + " " + token) == Some(token)
  {
    SplitJoin([scheme, token], ' ');
    assert Join([scheme, token], ' ') == scheme + " " + token;
  }

  /** A header with no space at all (a bare token, or "Bearer" alone) has no second field. */
  lemma BearerTokenNeedsSpace(header: string)
    requires ' ' !in header
    ensures BearerToken(header) == None
  {
    SplitNoSeparator(header, ' ');
  }

  /** Two spaces after the scheme make the second field empty, so the format check fails. */
  lemma BearerTokenDoubleSpace(scheme: string, token: string)
    requires ' ' !in scheme && ' ' !in token
    ensures BearerToken(scheme + "  " + token) == None
  {
    var fields: seq<string> := [scheme, [], token];
    SplitJoin(fields, ' ');
    assert fields[1..] == [[], token] && fields[1..][1..] == [token];
    assert Join([[], token], ' ') == [' '] + token;
    assert Join(fields, ' ') == scheme + [' '] + ([' '] + token);
    assert scheme + [' '] + ([' '] + token) == scheme + "  " + token;
  }

  /** A sound token service's freshly signed token, sent as a bearer header, authenticates as its claims. */
  lemma SignedTokenAuthenticates(scheme: string, claims: Identity, tokens: Crypto.TokenService)
    requires tokens.Sound()
    requires ' ' !in scheme
    ensures Authenticate(Some(scheme + " " + tokens.sign(claims, Crypto.TokenLifetime)), tokens.verify) == Pass(claims)
  {
    var token := tokens.sign(claims, Crypto.TokenLifetime);
    BearerTokenAnyScheme(scheme, token);
  }
}
