/** What the file system and the kernel share. */
module Common {

  datatype Option<T> = None | Some(value: T)

  /** A 64-bit machine word. */
  type Long = x: int | 0 <= x < 0x1_0000_0000_0000_0000

  const PAGE_SIZE: nat := 4096
}
