/** Outcomes of the operations that can fail in the retrieval pipeline.
    Every Python exception the core can raise becomes an explicit error value. */
module Outcomes {

  datatype Option<+T> = None | Some(value: T)

  datatype Result<+T, +E> = Ok(value: T) | Err(error: E)

  /** The two ways a boolean query can fail. */
  datatype QueryError =
    | UnmatchedClose   // `operators[-1]` read on an empty list while closing a `)`
    | StackUnderflow   // `stack.pop()` on an empty evaluation stack

  /** The one fatal failure of an index build. */
  datatype BuildError = DirectoryNotFound
}
