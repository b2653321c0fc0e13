/** The result types shared by the components, and the byte type of files and pipes. */
module Wrappers {

  newtype byte = x: int | 0 <= x < 256

  datatype Option<+T> = None | Some(value: T)

  /** A Go `(value, error)` pair; the error is its message. */
  datatype Result<+T> = Ok(value: T) | Err(error: string)

  /** Some key of a map, the same one every time. */
  ghost function AnyKey<V>(m: map<string, V>): (key: string)
    requires m != map[]
    ensures key in m
  {
    var key :| key in m; key
  }
}
