/** Small result types shared by the rest of the model. */
module Wrappers {

  /** A value or its absence: JavaScript's `undefined` where the source returns nothing. */
  datatype Option<+T> = None | Some(value: T)

  /** How a JavaScript handler finishes: normally with a value, or by throwing an error. */
  datatype Completion<+T> = Normal(value: T) | Thrown(error: string)
}
