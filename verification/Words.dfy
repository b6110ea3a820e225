/** The sizes of the machine words that the modelled programs count in. */
module Words {

  const UINT32 := 0x1_0000_0000
  const UINT64 := 0x1_0000_0000_0000_0000
}
