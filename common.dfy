/** Small value types shared by every module of the model. */
module Common {

  /** An 8-bit unsigned value, as a .NET `byte`. */
  type byte = b: int | 0 <= b < 256

  /** A byte buffer, as a non-null .NET `byte[]`. */
  type Bytes = seq<byte>

  /** A value that may be absent; `None` stands for a .NET `null` reference. */
  datatype Option<T> = None | Some(value: T)

  /** The outcome of an operation that may throw: `Err` carries the exception. */
  datatype Result<T, E> = Ok(value: T) | Err(error: E)
}
