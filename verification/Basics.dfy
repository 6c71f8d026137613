/** Types shared by several components. */
module Basics {
  datatype Option<+T> = None | Some(value: T)

  type Byte = b: int | 0 <= b < 256

  /** Block hashes and addresses are strings of the node, compared for equality only. */
  type Hash = string
  type Wallet = string
}
