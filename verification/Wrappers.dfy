module Wrappers {
  datatype Option<+T> = None | Some(value: T)

  type Byte = n: nat | n < 256
  type Bytes = seq<Byte>
}
