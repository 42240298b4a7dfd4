/** Option and Result values shared by the modules of this model. */
module Wrappers {

  datatype Option<+T> = None | Some(value: T)

  datatype Result<+R, +E> = Ok(value: R) | Err(error: E)
}

/** An unsigned 8-bit value: a pixel's palette index, a colour channel, a byte of a file. */
module Bytes {
  newtype byte = x: int | 0 <= x < 256
}
