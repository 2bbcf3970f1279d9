/** The optional values of the source: `undefined` / `null` versus a present value. */
module Wrappers {

  datatype Option<+T> = None | Some(value: T)
}
