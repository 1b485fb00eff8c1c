/** Types shared by every module of the model: Rust's `Option`, `Result`, `Result<()>` and `u32`. */
module Base {

  /** An optional value: Rust's `Option`. */
  datatype Option<+T> = None | Some(value: T)

  /** A value or an error: Rust's `Result`. */
  datatype Result<+T, +E> = Ok(value: T) | Err(error: E)

  /** Success or an error, for operations whose success carries nothing: `Result<()>`. */
  datatype Outcome<+E> = Pass | Fail(error: E)

  /** One more than the largest value of Rust's `u32`. */
  const U32_LIMIT: int := 0x1_0000_0000

  /** Rust's `u32`. */
  type uint32 = x: int | 0 <= x < U32_LIMIT
}
