/** Failure-carrying values shared by every module: a Go `(value, ok)` pair is an
    Option, a Go `(value, error)` pair is a Result. */
module Wrappers {

  datatype Option<+T> = None | Some(value: T)

  datatype Result<+T, +E> = Ok(value: T) | Err(error: E)

  /** A counter kept by name, 0 when absent, as indexing a Go map gives it. */
  function Get(m: map<string, nat>, key: string): nat { if key in m then m[key] else 0 }
}
