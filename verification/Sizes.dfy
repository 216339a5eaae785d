/** Sizes shared by the memory manager, the heap and the file systems. */
module Sizes {

  const PAGE_SIZE: nat := 4096

  const U64: nat := 0x1_0000_0000_0000_0000
}
