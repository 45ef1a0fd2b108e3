/** The optional value used for Python's `None`: a missing parse result, and the
    sentinel that tells a worker thread to exit. */
module Wrappers {

  datatype Option<T> = None | Some(value: T)
}
