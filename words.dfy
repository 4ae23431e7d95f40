/** The machine integer widths the C sources use, as bounded naturals. */
module Words {
  const TWO_TO_THE_32: nat := 0x1_0000_0000
  const TWO_TO_THE_64: nat := 0x1_0000_0000_0000_0000

  /** `uint32_t` */
  type U32 = n: nat | n < TWO_TO_THE_32
  /** `uint64_t`, and `size_t` on the 64-bit targets the sources are built for */
  type U64 = n: nat | n < TWO_TO_THE_64
}
