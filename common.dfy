/** Small value types shared by the client and the server components. */
module Common {

  /** An octet, as in Rust's `u8`. */
  type byte = b: int | 0 <= b < 0x100

  /** Rust's `u32`: RTP timestamps, texture and window sizes. */
  type u32 = n: int | 0 <= n < 0x1_0000_0000

  /** Largest value of Rust's `i64`; a float-to-`i64` cast saturates here. */
  const I64Max: int := 0x7fff_ffff_ffff_ffff

  datatype Option<+T> = None | Some(value: T) {
    /** Rust's `unwrap_or`. */
    function GetOr(default: T): T {
      match this
      case Some(v) => v
      case None => default
    }
  }

  datatype Result<+T, +E> = Ok(value: T) | Err(error: E)
}
