// The constants that several parts of the module share.
module Sizes {
  /** levelDeep. */
  const LEVELS: nat := 32

  /** min_sys_TAG_Services. */
  const SERVICES: nat := 256

  /** The values of an unsigned int, and of an unsigned long. */
  const UINT_RANGE: nat := 0x1_0000_0000
  const WORD: nat := 0x1_0000_0000_0000_0000

  function Min(a: nat, b: nat): nat { if a < b then a else b }

  function Bin(b: bool): int { if b then 1 else 0 }
}
