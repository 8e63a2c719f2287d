/** What the models share. */
module Common {

  datatype Option<+T> = None | Some(value: T)

  datatype Result<+T, +E> = Ok(value: T) | Err(error: E)

  newtype byte = x: int | 0 <= x < 256

  type Bytes = seq<byte>

  /** The largest `usize` of wasm32. */
  const USIZE_MAX: nat := 0xffff_ffff

  /** Pieces put back together. */
  function Flat(list: seq<Bytes>): Bytes {
    if list == [] then [] else list[0] + Flat(list[1..])
  }
}
