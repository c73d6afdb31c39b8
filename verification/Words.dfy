/** 32-bit machine words. */
module Words {
  type Word = x: int | 0 <= x < 0x1_0000_0000

  const WORD := 0x1_0000_0000

  /** An unsigned word read as an int. */
  function AsInt(u: nat): (n: int)
    requires u < WORD
  {
    if u < 0x8000_0000 then u else u - WORD
  }
}
