/** The sizes of kernel/param.h and kernel/riscv.h that several parts share. */
module Common {
  datatype Option<+T> = None | Some(value: T)

  const MAXOPBLOCKS: nat := 10 // blocks one file-system operation may log
  const LOGSIZE: nat := 30     // blocks the log holds
  const NBUF: nat := 30        // buffers in the block cache

  const PGSIZE := 4096
  const WORD := 0x1_0000_0000_0000_0000 // 64-bit words wrap here
}
