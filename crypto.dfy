/**
 * The bcrypt password hashing the service relies on. bcrypt is a foreign
 * library; what is modelled is its interface: a stored hash records the cost
 * and salt it was made with and the derived key, and comparing a password
 * re-derives the key with that salt and cost. The key derivation itself is a
 * function value nothing is known about.
 */
module Crypto {

  newtype byte = x: int | 0 <= x < 256

  /** bcrypt.DefaultCost */
  const DefaultCost: nat := 10

  /** bcrypt's key derivation: (password, salt, cost) to derived key. */
  type KeyDerivation = (seq<byte>, seq<byte>, nat) -> seq<byte>

  datatype PasswordHash = PasswordHash(cost: nat, salt: seq<byte>, key: seq<byte>)

  /** bcrypt.GenerateFromPassword, with the random salt given as a parameter. */
  function GenerateFromPassword(kdf: KeyDerivation, password: seq<byte>, salt: seq<byte>, cost: nat): (h: PasswordHash)
    ensures h.cost == cost && h.salt == salt
  {
    PasswordHash(cost, salt, kdf(password, salt, cost))
  }

  /** bcrypt.CompareHashAndPassword; true stands for a nil error. A password
      matches exactly when hashing it again with the stored salt and cost
      reproduces the stored hash. */
  predicate CompareHashAndPassword(kdf: KeyDerivation, h: PasswordHash, password: seq<byte>): (ok: bool)
    ensures ok <==> GenerateFromPassword(kdf, password, h.salt, h.cost) == h
  {
    kdf(password, h.salt, h.cost) == h.key
  }

  /** A password compares equal to the hash made from it, whatever the salt and cost. */
  lemma HashedPasswordMatches(kdf: KeyDerivation, password: seq<byte>, salt: seq<byte>, cost: nat)
    ensures CompareHashAndPassword(kdf, GenerateFromPassword(kdf, password, salt, cost), password)
  {
  }
}
