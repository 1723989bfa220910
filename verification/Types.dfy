/** Names shared by the components. */
module Types {
  const PAGE_SIZE: nat := 4096

  type Byte = x: int | 0 <= x < 256
  type Pid = nat

  /** A physical page frame number. */
  type Frame = nat
}
