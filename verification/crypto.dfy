/** bcrypt, reduced to two functions the model does not interpret:
    `hashPassword` and `verifyPassword` of the hashing utility. Salting is not
    modelled, so a hash is a function of the password alone. */
module Crypto {

  datatype Hasher = Hasher(hash: string -> string, matches: (string, string) -> bool)

  /** bcrypt's promise: a password matches its own hash. */
  ghost predicate Sound(h: Hasher) {
    forall p :: h.matches(p, h.hash(p))
  }

  /** A hash never equals the password it was made from. */
  ghost predicate Hiding(h: Hasher) {
    forall p :: h.hash(p) != p
  }
}
