/** The ranges of unsigned machine integers, and of table entries. */
module Widths {
  const TWO16: nat := 0x1_0000
  const TWO28: nat := 0x1000_0000
  const TWO32: nat := 0x1_0000_0000
  const TWO64: nat := 0x1_0000_0000_0000_0000
}
