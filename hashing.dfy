/**
 * Stand-in for the bcrypt helpers `hashPassword` and `comparePassword`.
 * A digest is the plaintext behind a fixed tag, so `Compare(p, h)` holds
 * exactly when `h` is the digest of `p`; salting, cost and bcrypt's
 * truncation of passwords to their first 72 bytes are not modelled.
 */
module Hashing {

  const Tag: string := "$2b$10$"

  /** The digest stored in the password column. */
  function Hash(plain: string): (digest: string)
    ensures |digest| == |Tag| + |plain|
    ensures digest[..|Tag|] == Tag
  {
    Tag + plain
  }

  /** A stored value that no password hashes to. */
  predicate NotADigest(s: string) {
    |s| < |Tag| || s[..|Tag|] != Tag
  }

  /** `comparePassword(plain, digest)`: the password that produced a digest matches it, and only digests match. */
  function Compare(plain: string, digest: string): (ok: bool)
    ensures digest == Hash(plain) ==> ok
    ensures ok ==> !NotADigest(digest)
  {
    Hash(plain) == digest
  }

  /** A value that is not a digest matches no password at all. */
  lemma NoPasswordMatches(s: string, p: string)
    requires NotADigest(s)
    ensures !Compare(p, s)
  {
  }
}
