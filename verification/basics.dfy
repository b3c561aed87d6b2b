/** What several layers share. */
module Basics {

  datatype Option<+T> = None | Some(value: T)

  /** The code as it is written, or with the named repairs applied. */
  datatype Edition = AsWritten | Repaired

  /** Threads, by number. */
  type Tid = nat

  /** How many values `size_t` has. */
  const SIZE_T: nat := 0x1_0000_0000_0000_0000
}
