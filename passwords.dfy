/**
 * Password hashing, as the signup and login handlers use it. The hashing
 * algorithm is not modelled: a digest records its salt and the part of the
 * password that bcrypt reads, which is at most its first 72 characters.
 * The salt is random; it is a parameter here.
 */
module Passwords {

  /** bcrypt ignores everything after the 72nd character. */
  const KeyLength: nat := 72

  /** A stored password hash. */
  datatype Digest = Digest(salt: nat, key: string)

  /** The part of a password that the hash depends on. */
  function Key(password: string): (k: string)
    ensures |k| <= KeyLength
    ensures k <= password
    ensures |password| <= KeyLength ==> k == password
  {
    if |password| <= KeyLength then password else password[..KeyLength]
  }

  /** `bcrypt.hash(password, salt)`. */
  function Hash(password: string, salt: nat): (d: Digest)
    ensures Verify(password, d)
    ensures d.salt == salt
  {
    Digest(salt, Key(password))
  }

  /** `bcrypt.compare(password, digest)`. */
  predicate Verify(password: string, d: Digest) {
    Key(password) == d.key
  }

  /** A hash accepts exactly the passwords that agree with the hashed one on the characters bcrypt reads. */
  lemma VerifyHashIff(password: string, attempt: string, salt: nat)
    ensures Verify(attempt, Hash(password, salt)) <==> Key(attempt) == Key(password)
  {
  }

  /** Two short passwords that differ are told apart. */
  lemma ShortPasswordsDistinguished(password: string, attempt: string, salt: nat)
    requires |password| <= KeyLength && |attempt| <= KeyLength && attempt != password
    ensures !Verify(attempt, Hash(password, salt))
  {
  }

  /** Characters after the 72nd are never checked. */
  lemma LongPasswordsTruncated(password: string, attempt: string, salt: nat)
    requires KeyLength <= |password| && KeyLength <= |attempt|
    requires password[..KeyLength] == attempt[..KeyLength]
    ensures Verify(attempt, Hash(password, salt))
  {
  }
}
