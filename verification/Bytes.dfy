// Octets and buffers, shared by every module.
//
// A convention of this project: where a contract or an invariant says `P(..) <==> true`, it says `P(..)`. Written so, P
// stays a name for the verifier, which otherwise unfolds it at every place it is used.
module Bytes {
  type byte = x: int | 0 <= x < 256

  type Buffer = seq<byte>

  const CONTAINER_MAX_SIZE: nat := 4194304

  function Min(a: int, b: int): int {
    if a <= b then a else b
  }

  datatype Option<+T> = None | Some(value: T)
}
