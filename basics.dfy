/** Small value types shared by every module of the model. */
module Basics {

  /** One octet of a byte string (Python 2 `str` used as bytes). */
  newtype byte = x: int | 0 <= x < 256

  /** A value that may be absent; the DNS client and the certificate
      fetcher map every failure to `None`. */
  datatype Option<T> = None | Some(value: T)

  /** The result of a computation that may raise `SystemExit` through
      `sys.exit(message)` instead of returning `value`; that ends the
      calling thread, or the program when called from the main thread. */
  datatype Fatal<T> = Done(value: T) | Exit(message: string)
}
