/** The optional value used throughout the model (JavaScript's `undefined`/`null` versus a present value). */
module Wrappers {

  datatype Option<+T> = None | Some(value: T)

}
