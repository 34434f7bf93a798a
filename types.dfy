/** Fixed-width integers, the block geometry and the log opcodes shared by
    every part of the durable graph store. */
module Types {

  const U32_MOD: nat := 0x1_0000_0000
  const U64_MOD: nat := 0x1_0000_0000_0000_0000

  /** `uint32_t` and `uint64_t`: the model keeps them as bounded integers and
      writes every wrap-around out with `% U32_MOD` or `% U64_MOD`. */
  type u32 = x: int | 0 <= x < 0x1_0000_0000
  type u64 = x: int | 0 <= x < 0x1_0000_0000_0000_0000

  /** `x + 1` in 32-bit unsigned arithmetic: the maximum wraps to 0. */
  function Inc32(x: u32): (r: u32)
    ensures x < 0xFFFF_FFFF ==> r == x + 1
    ensures x == 0xFFFF_FFFF ==> r == 0
  {
    if x < 0xFFFF_FFFF then x + 1 else 0
  }

  /** Every on-disk structure occupies exactly one block of BLOCK_SIZE bytes,
      that is WORDS_PER_BLOCK little-endian 64-bit words. */
  const BLOCK_SIZE: nat := 4096
  const WORDS_PER_BLOCK: nat := 512

  /** Added to the XOR of a block's words so that an all-zero block never
      matches its own checksum. */
  const CHECKSUM_OFFSET: nat := 100

  /** The operation codes stored in a log entry. */
  const OP_ADD_NODE: u32 := 0
  const OP_ADD_EDGE: u32 := 1
  const OP_REMOVE_NODE: u32 := 2
  const OP_REMOVE_EDGE: u32 := 3

  datatype Option<+T> = None | Some(value: T)
}
