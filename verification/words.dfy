// The machine word of both programs.
module Words {

  // unsigned int, uint32_t
  const WORD: nat := 0x1_0000_0000
}
