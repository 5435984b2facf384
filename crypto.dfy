/** The password hashers of both services (BCrypt in the current one,
    `PasswordHasher<User>` in the older one), abstracted as an ideal salted hash:
    a digest verifies exactly the secret it was made from, and the random salt
    is supplied by the caller. */
module Crypto {

  import opened Common

  /** A salted digest. Its fields exist only to give `Verify` a definition: no
      operation of the services reads them. The preimage is therefore carried in
      clear; that only the hash of a secret is stored holds by the type of the
      stored field, not by anything the model proves about what a digest reveals. */
  datatype Digest = Digest(preimage: string, salt: nat)

  /** `BCrypt.HashPassword(secret)` / `PasswordHasher.HashPassword(user, secret)`. */
  function Hash(secret: string, salt: nat): (d: Digest)
    ensures Verify(secret, d)
  {
    Digest(secret, salt)
  }

  /** `BCrypt.Verify(secret, digest)` / `VerifyHashedPassword(...) != Failed`. */
  predicate Verify(secret: string, d: Digest)
  {
    d.preimage == secret
  }

  /** The one property the services rely on: a digest verifies the secret it was
      made from and no other, whatever the salt. */
  lemma VerifyHash(secret: string, candidate: string, salt: nat)
    ensures Verify(candidate, Hash(secret, salt)) <==> candidate == secret
  {
  }

  /** A possibly missing digest (`string?`, where null and "" both verify nothing)
      verifies `secret`. */
  predicate Matches(secret: string, stored: Option<Digest>)
  {
    stored.Some? && Verify(secret, stored.value)
  }
}
