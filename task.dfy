/** The value types of Rust's task and result machinery that the adapter speaks in. */
module Task {

  /** `Option<T>`: the request slot of a not-yet-ready adapter. */
  datatype Option<T> = None | Some(value: T)

  /** `Result<T, E>`: what readiness checks and response futures resolve to. */
  datatype Result<T, E> = Ok(value: T) | Err(error: E)

  /** `std::task::Poll<T>`: either still waiting, or finished with a value. */
  datatype Poll<T> = Pending | Ready(value: T)
}
