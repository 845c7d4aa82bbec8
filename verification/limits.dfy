/** Widths and address-space constants (include/sys/page.h). */
module Limits {
  const TWO64: nat := 0x1_0000_0000_0000_0000
  const UHEAPSTART: nat := 0xFFFF_FF7F_7FDF_C000
  const UHEAPLIMIT: nat := 0xFFFF_FF7F_7FEF_C000
  const USTACKTOP: nat := 0xFFFF_FF7F_7FFF_E000
  const USTACKLIMIT: nat := 0xFFFF_FF7F_7FEF_E000
}
