/** Small value types shared by the whole model. */
module Common {

  /** An optional value (Rust's `Option`). */
  datatype Option<+T> = None | Some(value: T)

  /** A success value or an error value (Rust's `Result`). */
  datatype Result<+T, +E> = Ok(value: T) | Err(error: E)

  /** How one round trip to an external service (the database, the
      orchestration engine) turns out: it answers, or it fails with an
      I/O or connection error. The model takes these outcomes as inputs. */
  datatype Link = Up | Down
}
