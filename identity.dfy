/** Password hashing (bcrypt) and bearer credentials (jwt), as abstract
    functions with the laws the server relies on, and the `auth` middleware.

    Both primitives are idealised: a digest is represented by the inputs of
    the derivation and a signature by the secret and the claims it covers,
    which makes each injective (no collisions, no forgery with another
    secret) but cannot express that they are one-way or hard to forge. */
module Identity {
  import opened Http

  /** `bcrypt.hash(password, 12)`. */
  const BcryptCost: nat := 12

  /** `expiresIn: '30d'`, in seconds. */
  const TokenLifetime: nat := 30 * 24 * 60 * 60

  /** The output of bcrypt's key derivation for a cost, a salt and a password. */
  datatype Digest = Derived(cost: nat, salt: string, password: string)

  /** The stored `password` column: cost and salt in clear, then the digest. */
  datatype PasswordHash = Bcrypt(cost: nat, salt: string, digest: Digest)

  function Derive(cost: nat, salt: string, password: string): Digest {
    Derived(cost, salt, password)
  }

  /** `bcrypt.hash(password, BcryptCost)` with the random salt made a parameter. */
  function Hash(password: string, salt: string): (h: PasswordHash)
    ensures h.cost == BcryptCost && h.salt == salt
  {
    Bcrypt(BcryptCost, salt, Derive(BcryptCost, salt, password))
  }

  /** `bcrypt.compare(password, h)`: re-derive with the stored cost and salt. */
  predicate Matches(password: string, h: PasswordHash) {
    Derive(h.cost, h.salt, password) == h.digest
  }

  /** A hash accepts exactly the password it was made from. */
  lemma HashMatches(password: string, salt: string, attempt: string)
    ensures Matches(attempt, Hash(password, salt)) <==> attempt == password
  {
  }

  /** The signature of a token's claims under the process-wide secret. */
  datatype Signature = Hs256(secret: string, id: int, iat: nat, exp: nat)

  /** A signed token with claims `{ id, iat, exp }` (times in seconds). */
  datatype Token = Token(id: int, iat: nat, exp: nat, signature: Signature)

  /** The outcome of `jwt.verify`. */
  datatype Verdict = Verified(id: int) | BadSignature | Expired

  /** jwt works in whole seconds: `Math.floor(Date.now() / 1000)`. */
  function Seconds(nowMs: nat): nat {
    nowMs / 1000
  }

  /** `jwt.sign({ id }, secret, { expiresIn: '30d' })` at time `nowMs`. */
  function Sign(secret: string, id: int, nowMs: nat): (t: Token)
    ensures t.id == id && t.iat == Seconds(nowMs) && t.exp == t.iat + TokenLifetime
  {
    var iat := Seconds(nowMs);
    Token(id, iat, iat + TokenLifetime, Hs256(secret, id, iat, iat + TokenLifetime))
  }

  /** `jwt.verify(t, secret)`: the signature must cover the claims under this
      secret, and the token is expired from second `exp` on. */
  function Verify(secret: string, t: Token, nowMs: nat): (v: Verdict)
    ensures v.Verified? ==> v.id == t.id && Seconds(nowMs) < t.exp
    ensures v.Verified? ==> t.signature == Hs256(secret, t.id, t.iat, t.exp)
    ensures v == BadSignature <==> t.signature != Hs256(secret, t.id, t.iat, t.exp)
    ensures v == Verified(t.id) <==> t.signature == Hs256(secret, t.id, t.iat, t.exp) && Seconds(nowMs) < t.exp
  {
    if t.signature != Hs256(secret, t.id, t.iat, t.exp) then BadSignature
    else if Seconds(nowMs) >= t.exp then Expired
    else Verified(t.id)
  }

  /** A token verifies to the id it was signed for until its expiry second,
      and is expired from then on. */
  lemma SignThenVerify(secret: string, id: int, issuedMs: nat, nowMs: nat)
    ensures Verify(secret, Sign(secret, id, issuedMs), nowMs)
         == if Seconds(nowMs) < Seconds(issuedMs) + TokenLifetime then Verified(id) else Expired
  {
  }

  /** A token signed under another secret never verifies. */
  lemma OtherSecretRejected(secret: string, other: string, id: int, issuedMs: nat, nowMs: nat)
    requires other != secret
    ensures Verify(secret, Sign(other, id, issuedMs), nowMs) == BadSignature
  {
  }

  /** The `auth` middleware: no bearer token answers "No token", a token
      `jwt.verify` refuses (forged or expired) answers "Invalid token", and
      otherwise the request runs as the token's id. */
  function Authenticate(secret: string, bearer: Option<Token>, nowMs: nat): (r: Result<int>)
    ensures bearer.None? ==> r == Err(NoToken)
    ensures bearer.Some? && r.Err? ==> r == Err(InvalidToken)
    ensures r.Ok? ==> bearer.Some? && Verify(secret, bearer.value, nowMs) == Verified(r.value)
    ensures bearer.Some? && Verify(secret, bearer.value, nowMs).Verified? ==> r == Ok(bearer.value.id)
  {
    match bearer
    case None => Err(NoToken)
    case Some(t) =>
      match Verify(secret, t, nowMs)
      case Verified(id) => Ok(id)
      case BadSignature => Err(InvalidToken)
      case Expired => Err(InvalidToken)
  }

  /** A token from `Sign` authenticates as its id for thirty days. */
  lemma SignedAuthenticates(secret: string, id: int, issuedMs: nat, nowMs: nat)
    requires Seconds(nowMs) < Seconds(issuedMs) + TokenLifetime
    ensures Authenticate(secret, Some(Sign(secret, id, issuedMs)), nowMs) == Ok(id)
  {
    SignThenVerify(secret, id, issuedMs, nowMs);
  }
}
