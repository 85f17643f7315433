/** The optional-value datatype shared by the modules of this model. */
module Wrappers {

  /** `None` stands for Swift's `nil`. */
  datatype Option<+T> = None | Some(value: T)

  /** The smaller of two natural numbers. */
  function Min(a: nat, b: nat): nat {
    if a <= b then a else b
  }
}
