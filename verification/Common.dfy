/** Vocabulary that several components share. */
module Common {

  datatype Option<T> = None | Some(value: T)

  type Byte = b: nat | b < 256

  type Bytes = seq<Byte>

  /** Rust's saturating_sub on an unsigned integer. */
  function Less(a: nat, b: nat): nat {
    if a < b then 0 else a - b
  }
}
