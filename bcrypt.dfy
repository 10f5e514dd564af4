/**
 * The bcrypt library, seen only through the two calls the board makes:
 * `hash(plaintext, saltRounds)` and `compare(plaintext, digest)`.
 * Salting, the cost factor's work and constant-time comparison are
 * bcrypt's own business; here the two calls are injected function values.
 */
module Bcrypt {
  /** The random salt bcrypt draws inside `hash`; a parameter here. */
  type Salt = seq<char>

  /** The salt-rounds argument every password hash on the board uses. */
  const SaltRounds: nat := 10

  /** bcrypt's entry points: digest = hash(plaintext, rounds, salt); compare(plaintext, digest). */
  datatype Hasher = Hasher(
    hash: (string, nat, Salt) -> string,
    compare: (string, string) -> bool)

  /**
   * bcrypt's promise, which the board relies on but does not implement:
   * a plaintext matches every digest made from it. Lemmas that need it
   * take it as a hypothesis.
   */
  ghost predicate Sound(h: Hasher) {
    forall p, rounds, salt :: h.compare(p, h.hash(p, rounds, salt))
  }
}
