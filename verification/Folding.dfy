/** A way to keep a definition folded: it is stated for every z that is Shown, and opened by asserting one. */
module Folding {
  predicate Shown<A, B>(z: int, a: A, b: B) { true }
}
