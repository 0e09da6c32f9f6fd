/** Failure-compatible wrappers used in place of JavaScript's `null` and of the
    TypeError thrown when a missing array slot is dereferenced. */
module Wrappers {

  /** `None` stands for the `null` the source returns. */
  datatype Option<+T> = None | Some(value: T)

  /** `UndefinedIndex(i)` stands for reading `.y` of `points[i]` when `i` is not a
      valid index: JavaScript yields `undefined` there and the property read throws. */
  datatype Result<+T> = Ok(value: T) | UndefinedIndex(index: int)
}
