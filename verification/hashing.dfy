/**
 A stand-in for bcrypt (`bcrypt.genSalt`, `bcrypt.hash`, `bcrypt.compare`).

 The model keeps only what the handlers rely on: a hash record carries its
 salt, a password verifies against its own hash, and no other password does.
 `Mix` is an injective keyed encoding chosen so that both facts are provable;
 it is not a one-way function and makes no claim about bcrypt's strength.
 */
module Hashing {

  /** The salt returned by `bcrypt.genSalt`; its cost factor is not modelled. */
  type Salt = nat

  /** A self-describing hash record: the salt travels with the digest. */
  datatype PasswordHash = PasswordHash(salt: Salt, digest: seq<int>)

  /** The keyed encoding of a password under a salt. */
  function Mix(password: string, salt: Salt): (d: seq<int>)
    ensures |d| == |password|
  {
    if password == [] then [] else [password[0] as int + salt] + Mix(password[1..], salt)
  }

  /** Two passwords with the same encoding under one salt are the same password. */
  lemma {:induction false} MixInjective(p: string, q: string, salt: Salt)
    requires Mix(p, salt) == Mix(q, salt)
    ensures p == q
  {
    if p != [] {
      assert Mix(p, salt)[0] == Mix(q, salt)[0];
      assert p[0] == q[0];
      assert Mix(p[1..], salt) == Mix(p, salt)[1..];
      assert Mix(q[1..], salt) == Mix(q, salt)[1..];
      MixInjective(p[1..], q[1..], salt);
      assert p == [p[0]] + p[1..];
      assert q == [q[0]] + q[1..];
    }
  }

  /** `bcrypt.hash(password, salt)`. */
  function Hash(password: string, salt: Salt): (h: PasswordHash)
    ensures h.salt == salt
    ensures Verify(password, h)
  {
    PasswordHash(salt, Mix(password, salt))
  }

  /** `bcrypt.compare(password, h)`: recompute under the embedded salt and compare. */
  predicate Verify(password: string, h: PasswordHash)
  {
    Mix(password, h.salt) == h.digest
  }

  /** A hash verifies exactly the password it was made from. */
  lemma VerifyExactly(password: string, candidate: string, salt: Salt)
    ensures Verify(candidate, Hash(password, salt)) <==> candidate == password
  {
    if Verify(candidate, Hash(password, salt)) {
      MixInjective(candidate, password, salt);
    }
  }

  /** Equal passwords hashed under different salts give different records. */
  lemma SaltsDistinguish(password: string, s1: Salt, s2: Salt)
    requires s1 != s2
    ensures Hash(password, s1) != Hash(password, s2)
  {
  }
}
