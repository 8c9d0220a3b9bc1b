/**
 * The password hasher (bcrypt) and the token issuer/verifier (jsonwebtoken), kept abstract: the
 * handlers receive them as values, so the model fixes nothing about their internals beyond the
 * properties stated here.
 */
module Crypto {
  import opened Optional
  import opened Http

  /**
   * `bcrypt.hash(password, 10)` with its salt drawn once, and `bcrypt.compare(plain, stored)`,
   * which accepts exactly the stored hash of the plain password.
   */
  datatype PasswordHasher = PasswordHasher(hash: string -> string) {
    predicate Compare(plain: string, stored: string) {
      hash(plain) == stored
    }
  }

  /** `expiresIn: "1d"`, in seconds. */
  const TokenLifetime: nat := 86400

  /**
   * `jwt.sign(claims, secret, { expiresIn })` and `jwt.verify(token, secret)`, the secret being fixed.
   * `verify` answers None for a token that is malformed, expired or wrongly signed.
   */
  datatype TokenService = TokenService(sign: (Identity, nat) -> string, verify: string -> Option<Identity>) {

    /**
     * What a JWT library guarantees and the handlers rely on: a freshly signed token verifies back to
     * its claims, and it is a non-empty word (base64url segments joined by dots, so no space).
     */
    ghost predicate Sound() {
      forall c: Identity {:trigger sign(c, TokenLifetime)} ::
        && verify(sign(c, TokenLifetime)) == Some(c)
        && sign(c, TokenLifetime) != []
        && ' ' !in sign(c, TokenLifetime)
    }
  }
}
