/**
  The two bcrypt calls the handlers make. The library salts each hash at random; the model
  fixes one digest per plaintext, so `hash` is a function. Nothing here assumes that `verify`
  agrees with `hash`: the lemmas that need it take `Sound` as a precondition.
*/
module Bcrypt {

  datatype Hasher = Hasher(hash: string -> string, verify: (string, string) -> bool)

  /** bcrypt's promise: a plaintext verifies against its own digest. */
  ghost predicate Sound(h: Hasher) {
    forall p :: h.verify(p, h.hash(p))
  }
}
