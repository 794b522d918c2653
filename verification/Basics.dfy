/**
 Types that several of the models share.
 */
module Basics {
  datatype Option<+T> = None | Some(value: T)

  const UINT: nat := 0x1_0000_0000 // one past the largest unsigned int

  type Byte = x: int | 0 <= x < 256
}
