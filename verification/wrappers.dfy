/** The optional values of the TypeScript sources (`T | null`, `field?: T`). */
module Wrappers {

  /** `None` stands for `null` / `undefined`, `Some(v)` for a present value. */
  datatype Option<+T> = None | Some(value: T)
}
