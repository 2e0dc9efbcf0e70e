/** An optional value: `None` stands for JavaScript's `null`, `undefined`
    and the other falsy values a caller may pass instead of a real one. */
module Wrappers {
  datatype Option<+T> = None | Some(value: T)
}
