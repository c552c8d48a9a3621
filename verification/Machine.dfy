/** The width of the machine words that wrap around. */
module Machine {
  const TWO_32: nat := 0x1_0000_0000
}
