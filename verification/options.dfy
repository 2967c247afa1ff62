/** Small failure-carrying datatypes shared by the applet models. */
module Options {

  /** A value that may be absent. */
  datatype Option<T> = None | Some(value: T)

  /** Either a computed value or the reason an update was dropped. */
  datatype Result<T, E> = Success(value: T) | Failure(error: E)

  /** How an optional dataset argument resolves on one update: the applet was
      started without naming it, it was named but the update does not carry it
      (a `KeyError` in the source), or it is present with a value. */
  datatype Lookup<T> = NotConfigured | Absent | Present(value: T)
}
