/** Small result types shared by the whole model. */
module Wrappers {

  /** An optional value; `None` stands for JavaScript's `null`. */
  datatype Option<+T> = None | Some(value: T)

  /**
   * The completion of a JavaScript evaluation: it either returns a value
   * normally or throws.  The only exception the detector can raise is the
   * TypeError of reading a property of `null`, so no payload is needed.
   */
  datatype Completion<+T> = Normal(value: T) | Throw
}
