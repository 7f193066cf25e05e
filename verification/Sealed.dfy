/** Facts that are kept closed behind a quantifier: `forall z :: Open(z) ==> fact` is used only after
    `assert Open(0)`. */
module Sealed {
  datatype Seal = Known | Unknown

  predicate Open(z: nat) {
    true
  }
}
