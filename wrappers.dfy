/** Small helpers shared by the modules of this project. */
module Wrappers {

  /** A value that may be absent: JavaScript's `undefined`/`null` versus a present value. */
  datatype Option<+T> = None | Some(value: T)

  /** JavaScript truthiness of an optional string (`if (!s)` fails): present and not empty. */
  predicate Given(s: Option<string>) {
    s.Some? && s.value != ""
  }
}
